/** The MMH hash: a running hash fed in pieces, against its definition on the whole message. */
module Mmh {
  import opened MmhWords
  import opened MmhMix

  const MMH_X_SIZE := 512
  const TWO32 := 0x1_0000_0000
  const TWO64 := 0x1_0000_0000_0000_0000
  const BLOCK := 16

  type Table = t: seq<nat> | |t| == MMH_X_SIZE + 8 witness seq(MMH_X_SIZE + 8, _ => 0)

  /** The words of a message of whole words. */
  function WordsOf(big: bool, s: seq<bv8>): (r: seq<nat>)
    requires |s| % 4 == 0
    ensures |r| == |s| / 4
  {
    seq(|s| / 4, i requires 0 <= i < |s| / 4 =>
      Word(big, s[4 * i], s[4 * i + 1], s[4 * i + 2], s[4 * i + 3]) as nat)
  }

  /** The initial state of a lane. */
  function Init(table: Table, lane: nat): nat
    requires lane < 4
  {
    (table[MMH_X_SIZE + 2 * lane] * TWO32 + table[MMH_X_SIZE + 2 * lane + 1]) % TWO64
  }

  /** The inner product of the words of a lane with the table. */
  function Dot(table: Table, words: seq<nat>, lane: nat): nat {
    if words == [] then 0
    else
      var k := |words| - 1;
      Dot(table, words[..k], lane) + if k % 4 == lane then words[k] * table[k % MMH_X_SIZE] else 0
  }

  /** A lane after these words. */
  function Lane(table: Table, words: seq<nat>, lane: nat): nat
    requires lane < 4
  {
    (Init(table, lane) + Dot(table, words, lane)) % TWO64
  }

  function Lanes(table: Table, words: seq<nat>): (r: seq<nat>)
    ensures |r| == 4
  {
    [Lane(table, words, 0), Lane(table, words, 1), Lane(table, words, 2), Lane(table, words, 3)]
  }

  /** A message with zeros up to a whole number of blocks. */
  function Padded(s: seq<bv8>): (r: seq<bv8>)
    ensures |r| % BLOCK == 0
  {
    if |s| % BLOCK == 0 then s else s + seq(BLOCK - |s| % BLOCK, _ => 0)
  }

  /** All words that are hashed: the padded message, then its length four times. */
  function MessageWords(big: bool, s: seq<bv8>): seq<nat> {
    var len := |s| % TWO32;
    WordsOf(big, Padded(s)) + [len, len, len, len]
  }

  /** 2 to the 32nd plus 15, a prime. */
  const D := 0x1_0000_000F

  function Residue(lane: nat): bv32 {
    ((lane % D) % TWO32) as bv32
  }

  /** The hash of a message. */
  function Hash(table: Table, big: bool, s: seq<bv8>): Quad {
    var l := Lanes(table, MessageWords(big, s));
    Scramble(Quad(Residue(l[0]), Residue(l[1]), Residue(l[2]), Residue(l[3])))
  }

  lemma ModAdd(x: nat, y: nat)
    ensures (x % TWO64 + y) % TWO64 == (x + y) % TWO64
  {
    var q := x / TWO64;
    assert x == q * TWO64 + x % TWO64;
  }

  lemma DotOne(table: Table, words: seq<nat>, w: nat, lane: nat)
    ensures Dot(table, words + [w], lane) ==
            Dot(table, words, lane) + if |words| % 4 == lane then w * table[|words| % MMH_X_SIZE] else 0
  {
    assert (words + [w])[..|words|] == words;
  }

  /** Four more words, one for each lane. */
  lemma DotFour(table: Table, words: seq<nat>, ws: seq<nat>, lane: nat)
    requires |words| % 4 == 0 && |ws| == 4 && lane < 4
    ensures Dot(table, words + ws, lane) == Dot(table, words, lane) + ws[lane] * table[(|words| + lane) % MMH_X_SIZE]
  {
    hide Dot;
    var w1, w2, w3 := words + [ws[0]], words + [ws[0]] + [ws[1]], words + [ws[0]] + [ws[1]] + [ws[2]];
    assert words + ws == w3 + [ws[3]];
    DotOne(table, words, ws[0], lane);
    DotOne(table, w1, ws[1], lane);
    DotOne(table, w2, ws[2], lane);
    DotOne(table, w3, ws[3], lane);
  }

  lemma LaneFour(table: Table, words: seq<nat>, ws: seq<nat>, lane: nat)
    requires |words| % 4 == 0 && |ws| == 4 && lane < 4
    ensures Lane(table, words + ws, lane) ==
            (Lane(table, words, lane) + ws[lane] * table[(|words| + lane) % MMH_X_SIZE]) % TWO64
  {
    hide Dot, Init;
    DotFour(table, words, ws, lane);
    ModAdd(Init(table, lane) + Dot(table, words, lane), ws[lane] * table[(|words| + lane) % MMH_X_SIZE]);
  }

  lemma WordsAppend(big: bool, s: seq<bv8>, t: seq<bv8>)
    requires |s| % 4 == 0 && |t| % 4 == 0
    ensures (|s| + |t|) % 4 == 0 && WordsOf(big, s + t) == WordsOf(big, s) + WordsOf(big, t)
  {
    hide Word;
    var st := s + t;
    forall i: nat | i < |st| / 4
      ensures WordsOf(big, st)[i] == (WordsOf(big, s) + WordsOf(big, t))[i]
    {
      if i < |s| / 4 {
        assert 4 * i + 3 < |s|;
      } else {
        var j := i - |s| / 4;
        assert 4 * i == |s| + 4 * j;
      }
    }
  }

  function Bytes(mem: Memory, a: nat, n: nat): (r: seq<bv8>)
    ensures |r| == n
  {
    seq(n, i requires 0 <= i < n => mem(a + i))
  }

  /** The four words of a block in memory. */
  function BlockWords(mem: Memory, p: nat, big: bool): seq<nat> {
    [Load(mem, p, big) as nat, Load(mem, p + 4, big) as nat, Load(mem, p + 8, big) as nat, Load(mem, p + 12, big) as nat]
  }

  lemma WordInBlock(mem: Memory, p: nat, big: bool, i: nat)
    requires i < 4
    ensures WordsOf(big, Bytes(mem, p, BLOCK))[i] == Load(mem, p + 4 * i, big) as nat
  {
    hide Word;
  }

  lemma BlockIsWords(mem: Memory, p: nat, big: bool)
    ensures WordsOf(big, Bytes(mem, p, BLOCK)) == BlockWords(mem, p, big)
  {
    hide WordsOf, Load;
    WordInBlock(mem, p, big, 0);
    WordInBlock(mem, p, big, 1);
    WordInBlock(mem, p, big, 2);
    WordInBlock(mem, p, big, 3);
  }

  /** The bytes of a message that make whole blocks. */
  function Whole(n: nat): (w: nat)
    ensures w <= n < w + BLOCK && w % 4 == 0 && w == BLOCK * (n / BLOCK)
  {
    BLOCK * (n / BLOCK)
  }

  /** What the running hash holds after a message. */
  ghost predicate Holds(table: Table, big: bool, msg: seq<bv8>, state: seq<nat>, buffer: seq<bv8>, bufferSize: nat, blocks: nat) {
    var w := Whole(|msg|);
    && |buffer| == 2 * BLOCK && bufferSize == |msg| - w && buffer[..bufferSize] == msg[w..]
    && 4 * blocks == w && state == Lanes(table, WordsOf(big, msg[..w]))
  }

  lemma NothingBuffered(msg: seq<bv8>)
    ensures |msg| % BLOCK == 0 <==> Whole(|msg|) == |msg|
    ensures |msg| % BLOCK == 0 ==> msg[..Whole(|msg|)] == msg && msg[Whole(|msg|)..] == []
  {
  }

  lemma SameWhole(n: nat, k: nat)
    requires n - Whole(n) + k < BLOCK
    ensures Whole(n + k) == Whole(n)
  {
  }

  lemma BufferBytes(b: seq<bv8>)
    requires |b| >= BLOCK
    ensures Bytes((i: nat) => if i < |b| then b[i] else 0, 0, BLOCK) == b[..BLOCK]
  {
  }

  class Ctx {
    const table: Table
    const big: bool
    var state: seq<nat>
    var buffer: seq<bv8>
    var bufferSize: nat
    var blocks: nat
    /** Everything fed so far. */
    ghost var msg: seq<bv8>

    /** `ink_code_incr_MMH_init`. */
    constructor (table: Table, big: bool)
      ensures this.table == table && this.big == big && msg == [] && Valid()
    {
      this.table, this.big := table, big;
      buffer, bufferSize, blocks, msg := seq(2 * BLOCK, _ => 0), 0, 0, [];
      state := [Init(table, 0), Init(table, 1), Init(table, 2), Init(table, 3)];
    }

    ghost predicate Valid()
      reads this
    {
      Holds(table, big, msg, state, buffer, bufferSize, blocks)
    }

    /** `MMH_update`, given its four words. */
    method Absorb(ws: seq<nat>, ghost words: seq<nat>)
      requires |ws| == 4 && blocks == |words| && |words| % 4 == 0 && state == Lanes(table, words)
      modifies this`state, this`blocks
      ensures blocks == old(blocks) + 4 && state == Lanes(table, words + ws)
    {
      hide Lane;
      LaneFour(table, words, ws, 0);
      LaneFour(table, words, ws, 1);
      LaneFour(table, words, ws, 2);
      LaneFour(table, words, ws, 3);
      state := [(state[0] + ws[0] * table[(blocks + 0) % MMH_X_SIZE]) % TWO64,
                (state[1] + ws[1] * table[(blocks + 1) % MMH_X_SIZE]) % TWO64,
                (state[2] + ws[2] * table[(blocks + 2) % MMH_X_SIZE]) % TWO64,
                (state[3] + ws[3] * table[(blocks + 3) % MMH_X_SIZE]) % TWO64];
      blocks := blocks + 4;
    }

    /** The words of one block, at an address of that alignment. */
    method Fetch(mem: Memory, p: nat, alignment: nat) returns (ws: seq<bv32>)
      requires alignment <= 3 && alignment <= p
      ensures ws == [Load(mem, p, big), Load(mem, p + 4, big), Load(mem, p + 8, big), Load(mem, p + 12, big)]
    {
      hide Load, Combine;
      if alignment == 0 {
        ws := [Load(mem, p, big), Load(mem, p + 4, big), Load(mem, p + 8, big), Load(mem, p + 12, big)];
      } else {
        var q := p - alignment;
        var b0, b1, b2 := Load(mem, q, big), Load(mem, q + 4, big), Load(mem, q + 8, big);
        var b3, b4 := Load(mem, q + 12, big), Load(mem, q + 16, big);
        ws := [Combine(big, alignment, b0, b1), Combine(big, alignment, b1, b2),
               Combine(big, alignment, b2, b3), Combine(big, alignment, b3, b4)];
        CombineIsLoad(mem, p, big, alignment);
        CombineIsLoad(mem, p + 4, big, alignment);
        CombineIsLoad(mem, p + 8, big, alignment);
        CombineIsLoad(mem, p + 12, big, alignment);
      }
    }

    /** `MMH_update` and its unaligned variants: one block of the message `m` so far. */
    method Block(mem: Memory, p: nat, alignment: nat, ghost m: seq<bv8>)
      requires alignment <= 3 && alignment <= p && |m| % BLOCK == 0 && 4 * blocks == |m| && state == Lanes(table, WordsOf(big, m))
      modifies this`state, this`blocks
      ensures 4 * blocks == |m| + BLOCK && state == Lanes(table, WordsOf(big, m + Bytes(mem, p, BLOCK)))
    {
      hide Lane, WordsOf, Load;
      var ws := Fetch(mem, p, alignment);
      Sixteens(|m|);
      BlockIsWords(mem, p, big);
      WordsAppend(big, m, Bytes(mem, p, BLOCK));
      Absorb([ws[0] as nat, ws[1] as nat, ws[2] as nat, ws[3] as nat], WordsOf(big, m));
    }

    /** A whole block, nothing being buffered. */
    method WholeBlock(mem: Memory, p: nat, alignment: nat)
      requires Valid() && bufferSize == 0 && alignment <= 3 && alignment <= p
      modifies this`state, this`blocks, this`msg
      ensures Valid() && bufferSize == 0 && msg == old(msg) + Bytes(mem, p, BLOCK)
    {
      hide Lanes, WordsOf, Bytes;
      NothingBuffered(msg);
      Sixteens(|msg|);
      Block(mem, p, alignment, msg);
      msg := msg + Bytes(mem, p, BLOCK);
      NothingBuffered(msg);
    }

    /** Bytes that do not fill the buffer. */
    method Store(mem: Memory, p: nat, k: nat)
      requires Valid() && bufferSize + k < BLOCK
      modifies this`buffer, this`bufferSize, this`msg
      ensures Valid() && msg == old(msg) + Bytes(mem, p, k)
    {
      hide Lanes, WordsOf, Bytes;
      ghost var w := Whole(|msg|);
      var fed := Bytes(mem, p, k);
      assert (msg + fed)[..w] == msg[..w] && (msg + fed)[w..] == msg[w..] + fed;
      SameWhole(|msg|, k);
      buffer := buffer[..bufferSize] + fed + buffer[bufferSize + k..];
      bufferSize := bufferSize + k;
      msg := msg + fed;
    }

    /** Bytes that fill the buffer, which becomes a block. */
    method Flush(mem: Memory, p: nat)
      requires Valid() && bufferSize != 0
      modifies this
      ensures Valid() && bufferSize == 0 && msg == old(msg) + Bytes(mem, p, BLOCK - old(bufferSize))
    {
      hide Lanes, WordsOf, Bytes;
      var l := BLOCK - bufferSize;
      ghost var w := Whole(|msg|);
      ghost var m := msg[..w];
      var fed := Bytes(mem, p, l);
      buffer := buffer[..bufferSize] + fed + buffer[BLOCK..];
      bufferSize := 0;
      var b := buffer;
      var bufferMem := (i: nat) => if i < |b| then b[i] else 0;
      BufferBytes(b);
      Block(bufferMem, 0, 0, m);
      assert m + b[..BLOCK] == msg + fed;
      msg := msg + fed;
      NothingBuffered(msg);
    }

    /** `ink_code_incr_MMH_update`: `n` bytes at address `a`. */
    method Update(mem: Memory, a: nat, n: nat)
      requires Valid()
      modifies this
      ensures Valid() && msg == old(msg) + Bytes(mem, a, n)
    {
      hide Holds, Bytes;
      var p, end := a, a + n;
      Buffered(table, big, msg, state, buffer, bufferSize, blocks);
      if bufferSize != 0 {
        var l := BLOCK - bufferSize;
        if n < l {
          Store(mem, p, n);
          return;
        }
        Flush(mem, p);
        p := p + l;
      } else {
        BytesNone(mem, a);
      }
      var alignment := p % 4;
      while p + BLOCK <= end
        invariant a <= p <= end && p % 4 == alignment && Valid() && bufferSize == 0
        invariant msg == old(msg) + Bytes(mem, a, p - a)
        decreases end - p
      {
        BytesAppend(mem, a, p - a, BLOCK);
        WholeBlock(mem, p, alignment);
        p := p + BLOCK;
      }
      BytesAppend(mem, a, p - a, end - p);
      if end - p != 0 {
        Store(mem, p, end - p);
      } else {
        BytesNone(mem, p);
      }
    }

    /** `ink_code_incr_MMH_final`. */
    method Final() returns (hash: Quad)
      requires Valid()
      modifies this
      ensures hash == Hash(table, big, msg) && msg == old(msg)
    {
      hide Lanes, WordsOf, Bytes, Residue, Scramble, Padded;
      PaddedLength(msg);
      var len := (4 * blocks + bufferSize) % TWO32;
      ghost var padded := Padded(msg);
      if bufferSize != 0 {
        Pad();
      } else {
        NothingBuffered(msg);
      }
      Absorb([len, len, len, len], WordsOf(big, padded));
      hash := Scramble(Quad(Residue(state[0]), Residue(state[1]), Residue(state[2]), Residue(state[3])));
    }

    /** The buffered bytes, with zeros after them, become a block. */
    method Pad()
      requires Valid() && bufferSize != 0
      modifies this
      ensures msg == old(msg) && 4 * blocks == |Padded(msg)| && state == Lanes(table, WordsOf(big, Padded(msg)))
    {
      hide Lanes, WordsOf, Bytes;
      ghost var w := Whole(|msg|);
      ghost var m := msg[..w];
      buffer := buffer[..bufferSize] + seq(BLOCK - bufferSize, _ => 0) + buffer[BLOCK..];
      bufferSize := 0;
      var b := buffer;
      BufferBytes(b);
      Block((i: nat) => if i < |b| then b[i] else 0, 0, 0, m);
      assert m + b[..BLOCK] == Padded(msg);
    }
  }

  lemma PaddedLength(s: seq<bv8>)
    ensures |Padded(s)| == BLOCK * (|Padded(s)| / BLOCK) && |Padded(s)| % 4 == 0 && |Padded(s)| / 4 % 4 == 0
    ensures |s| % BLOCK == 0 ==> Padded(s) == s
  {
    Sixteens(|Padded(s)|);
  }

  lemma Sixteens(n: nat)
    requires n % BLOCK == 0
    ensures n == BLOCK * (n / BLOCK) && n % 4 == 0 && n / 4 % 4 == 0 && (n + BLOCK) % BLOCK == 0
  {
    var q := n / BLOCK;
    assert n == BLOCK * q;
    assert n / 4 == 4 * q;
    assert n + BLOCK == BLOCK * (q + 1);
  }

  lemma Buffered(table: Table, big: bool, msg: seq<bv8>, state: seq<nat>, buffer: seq<bv8>, bufferSize: nat, blocks: nat)
    requires Holds(table, big, msg, state, buffer, bufferSize, blocks)
    ensures bufferSize < BLOCK
  {
  }

  lemma BytesNone(mem: Memory, a: nat)
    ensures Bytes(mem, a, 0) == []
  {
  }

  lemma BytesAppend(mem: Memory, a: nat, m: nat, n: nat)
    ensures Bytes(mem, a, m + n) == Bytes(mem, a, m) + Bytes(mem, a + m, n)
  {
  }

  /** `ink_code_MMH`: the whole message at once, wherever it lies in memory. */
  method OneShot(table: Table, big: bool, mem: Memory, a: nat, n: nat) returns (hash: Quad)
    ensures hash == Hash(table, big, Bytes(mem, a, n))
  {
    hide Hash, Holds, Bytes;
    var ctx := new Ctx(table, big);
    ctx.Update(mem, a, n);
    assert ctx.msg == Bytes(mem, a, n);
    hash := ctx.Final();
  }

  /** A piece of a message: some bytes somewhere in memory. */
  datatype Piece = Piece(mem: Memory, a: nat, n: nat)

  function Message(pieces: seq<Piece>): seq<bv8> {
    if pieces == [] then []
    else Message(pieces[..|pieces| - 1]) + var p := pieces[|pieces| - 1]; Bytes(p.mem, p.a, p.n)
  }

  /** In pieces: only the message counts, not where it was cut or where the pieces lie. */
  method InPieces(table: Table, big: bool, pieces: seq<Piece>) returns (hash: Quad)
    ensures hash == Hash(table, big, Message(pieces))
  {
    hide Hash, Holds, Bytes;
    var ctx := new Ctx(table, big);
    for i := 0 to |pieces|
      invariant ctx.Valid() && ctx.table == table && ctx.big == big && fresh(ctx)
      invariant ctx.msg == Message(pieces[..i])
    {
      assert pieces[..i + 1][..i] == pieces[..i];
      ctx.Update(pieces[i].mem, pieces[i].a, pieces[i].n);
    }
    assert pieces[..|pieces|] == pieces;
    hash := ctx.Final();
  }
}
