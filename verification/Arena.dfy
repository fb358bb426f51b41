/** The arena allocator: blocks with a water level, first fit, frees that only ever lower the oldest level. */
module Arena {
  import opened Alignment
  import opened Powers

  /** `sizeof(ArenaBlock) - 8`. */
  const HEADER := 24
  const DEFAULT_BLOCK_SIZE := 1024 - HEADER
  const INT_MAX := 0x7fff_ffff
  /** Blocks lie in the lower half of the address space. */
  const ADDRESS_BITS := 63

  /** `ArenaBlock`: its address, the size of its data, and the first unused address. */
  datatype Block = Block(base: nat, size: nat, water: nat) {
    function Data(): nat {
      base + HEADER
    }

    function End(): nat {
      base + HEADER + size
    }
  }

  /** Memory handed out. */
  datatype Span = Span(addr: nat, size: nat)

  ghost predicate Filled(b: Block) {
    b.Data() <= b.water <= b.End() <= Pow2(ADDRESS_BITS)
  }

  ghost predicate BlocksApart(b: Block, c: Block) {
    b.End() <= c.base || c.End() <= b.base
  }

  /** No byte belongs to both. */
  ghost predicate Disjoint(s: Span, t: Span) {
    s.size == 0 || t.size == 0 || s.addr + s.size <= t.addr || t.addr + t.size <= s.addr
  }

  /** Below the water level; an empty span anywhere in the block. */
  ghost predicate Inside(s: Span, b: Block) {
    b.Data() <= s.addr && s.addr + s.size <= if s.size == 0 then b.End() else b.water
  }

  ghost predicate Owned(s: Span, blocks: seq<Block>) {
    exists i: nat :: i < |blocks| && Inside(s, blocks[i])
  }

  ghost predicate Layout(blocks: seq<Block>) {
    && (forall i: nat | i < |blocks| :: Filled(blocks[i]))
    && (forall i: nat, j: nat | i < j < |blocks| :: BlocksApart(blocks[i], blocks[j]))
  }

  ghost predicate AllOwned(live: seq<Span>, blocks: seq<Block>) {
    forall i: nat | i < |live| :: Owned(live[i], blocks)
  }

  ghost predicate AllDisjoint(live: seq<Span>) {
    forall i: nat, j: nat | i < j < |live| :: Disjoint(live[i], live[j])
  }

  /** All spans but one. */
  ghost function Without(live: seq<Span>, j: nat): (r: seq<Span>)
    requires j < |live|
    ensures |r| == |live| - 1
  {
    live[..j] + live[j + 1..]
  }

  function Max(a: nat, b: nat): nat {
    if a < b then b else a
  }

  /** The size of a new block. */
  function BlockSize(size: nat): nat {
    Max(size * 3 / 2, DEFAULT_BLOCK_SIZE)
  }

  /** The address a block would hand out. */
  function Candidate(b: Block, k: nat): nat
    requires b.water < Pow2(WORD_BITS) && Pow2(k) < Pow2(WORD_BITS)
  {
    b.water + Padding(b.water, Pow2(k))
  }

  /** The block has room for the size at the alignment. */
  ghost predicate Fits(b: Block, size: nat, k: nat) {
    b.water < Pow2(WORD_BITS) && Pow2(k) < Pow2(WORD_BITS) && Candidate(b, k) + size <= b.End()
  }

  /** The block that is made for a size. */
  function NewBlock(base: nat, size: nat): Block {
    Block(base, BlockSize(size), base + HEADER)
  }

  lemma InRange(b: Block, k: nat)
    requires Filled(b) && k < ADDRESS_BITS
    ensures b.water < Pow2(WORD_BITS) && Pow2(k) < Pow2(WORD_BITS) && b.water + Pow2(k) < Pow2(WORD_BITS)
  {
    PowLess(k, ADDRESS_BITS);
    assert Pow2(WORD_BITS) == 2 * Pow2(ADDRESS_BITS);
  }

  /** `block_alloc`: the aligned address and the block after it, or nothing. */
  method BlockAlloc(b: Block, size: nat, k: nat) returns (mem: nat, after: Block)
    requires Filled(b) && k < ADDRESS_BITS
    ensures Filled(after) && after.base == b.base && after.size == b.size
    ensures b.water < Pow2(WORD_BITS) && Pow2(k) < Pow2(WORD_BITS)
    ensures if Candidate(b, k) + size <= b.End() then mem == Candidate(b, k) && after.water == mem + size
            else mem == 0 && after == b
    ensures mem != 0 <==> Fits(b, size, k)
    ensures mem != 0 ==> b.water <= mem && Aligned(mem, k)
  {
    hide Shift, Padding, Aligned;
    InRange(b, k);
    PaddingAligns(b.water, k);
    mem, after := Candidate(b, k), b;
    if b.End() >= mem && b.End() - mem >= size {
      after := b.(water := mem + size);
    } else {
      mem := 0;
    }
  }

  /** In a new block every power of two up to 256 finds room for the size it was made for. */
  lemma NewBlockSuffices(base: nat, size: nat, k: nat)
    requires k <= 8 && base + HEADER + BlockSize(size) <= Pow2(ADDRESS_BITS)
    ensures Fits(NewBlock(base, size), size, k)
  {
    var b := NewBlock(base, size);
    InRange(b, k);
    PaddingAligns(b.water, k);
    SmallPowers(k);
  }

  lemma SmallPowers(k: nat)
    requires k <= 8
    ensures Pow2(k) <= 256
  {
    if k < 8 {
      PowLess(k, 8);
    }
    assert Pow2(8) == 256 by {
      assert Shift(1, 4) == 16;
    }
  }

  /** No larger power of two does: some size, at an address as `malloc` returns it, finds no room in its own new block. */
  lemma LargerAlignmentFails(k: nat) returns (base: nat, size: nat)
    requires 9 <= k < ADDRESS_BITS
    ensures base % 16 == 0 && BlockSize(size) <= INT_MAX && base + HEADER + BlockSize(size) <= Pow2(ADDRESS_BITS)
    ensures !Fits(NewBlock(base, size), size, k)
  {
    hide Shift, Padding, Aligned;
    BigPowers(k);
    RoomAbove(k);
    base, size := Pow2(k) + 8 - HEADER, 666;
    var b := NewBlock(base, size);
    InRange(b, k);
    PaddingAligns(b.water, k);
    NextMultiple(k, b.water + Padding(b.water, Pow2(k)));
  }

  lemma {:induction false} BigPowers(k: nat)
    requires 9 <= k
    ensures Pow2(k) >= 512 && Pow2(k) % 16 == 0
  {
    if k == 9 {
      assert Shift(1, 4) == 16;
      assert Shift(1, 8) == 256;
    } else {
      BigPowers(k - 1);
      assert Pow2(k) == 2 * Pow2(k - 1);
    }
  }

  /** Above any power there is room for a block of the default size. */
  lemma RoomAbove(k: nat)
    requires k < ADDRESS_BITS
    ensures Pow2(k) + 1024 <= Pow2(ADDRESS_BITS)
  {
    if k < ADDRESS_BITS - 1 {
      PowLess(k, ADDRESS_BITS - 1);
    }
    BigPowers(9);
    assert Pow2(10) == 2 * Pow2(9);
    PowLess(10, ADDRESS_BITS - 1);
    assert Pow2(ADDRESS_BITS) == 2 * Pow2(ADDRESS_BITS - 1);
  }

  /** A new block has room for every size at every address `malloc` returns if and only if the alignment is at most 256. */
  lemma AlignmentIff(k: nat)
    requires k < ADDRESS_BITS
    ensures (forall base: nat, size: nat | base % 16 == 0 && base + HEADER + BlockSize(size) <= Pow2(ADDRESS_BITS) ::
              Fits(NewBlock(base, size), size, k)) <==> k <= 8
  {
    hide Fits;
    if k <= 8 {
      forall base: nat, size: nat | base + HEADER + BlockSize(size) <= Pow2(ADDRESS_BITS)
        ensures Fits(NewBlock(base, size), size, k)
      {
        NewBlockSuffices(base, size, k);
      }
    } else {
      var base, size := LargerAlignmentFails(k);
    }
  }

  lemma NextMultiple(k: nat, x: nat)
    requires Aligned(x, k) && x > Pow2(k)
    ensures x >= 2 * Pow2(k)
  {
    var q: nat :| x == Shift(q, k);
    hide Shift;
    ShiftNothing(k);
    if q >= 2 {
      ShiftAdd(2, q - 2, k);
      ShiftAdd(1, 1, k);
    }
  }

  lemma OwnedAfter(s: Span, blocks: seq<Block>, i: nat, b: Block)
    requires Owned(s, blocks) && i < |blocks| && b.base == blocks[i].base && b.size == blocks[i].size
    requires s.size > 0 && Inside(s, blocks[i]) ==> s.addr + s.size <= b.water
    ensures Owned(s, blocks[i := b])
  {
    var j: nat :| j < |blocks| && Inside(s, blocks[j]);
    assert Inside(s, blocks[i := b][j]);
  }

  /** Memory above a block's water level is nobody's. */
  lemma FreshIsDisjoint(live: seq<Span>, blocks: seq<Block>, i: nat, s: Span)
    requires Layout(blocks) && AllOwned(live, blocks) && i < |blocks|
    requires blocks[i].water <= s.addr && s.addr + s.size <= blocks[i].End()
    ensures forall j: nat | j < |live| :: Disjoint(live[j], s)
  {
    forall j: nat | j < |live|
      ensures Disjoint(live[j], s)
    {
      assert Owned(live[j], blocks);
      var n: nat :| n < |blocks| && Inside(live[j], blocks[n]);
      assert n < i ==> BlocksApart(blocks[n], blocks[i]);
      assert i < n ==> BlocksApart(blocks[i], blocks[n]);
    }
  }

  class Heap {
    /** `m_blocks`, newest first. */
    var blocks: seq<Block>
    /** What has been handed out and not given back. */
    ghost var live: seq<Span>

    constructor ()
      ensures Valid() && live == [] && blocks == []
    {
      blocks, live := [], [];
    }

    ghost predicate Valid()
      reads this
    {
      Layout(blocks) && AllOwned(live, blocks) && AllDisjoint(live)
    }

    /** A span from block `i`. */
    method Take(i: nat, size: nat, k: nat) returns (mem: nat)
      requires Valid() && i < |blocks| && k < ADDRESS_BITS
      modifies this
      ensures Valid()
      ensures mem == 0 ==> blocks == old(blocks) && live == old(live)
      ensures mem != 0 ==> live == old(live) + [Span(mem, size)] && Aligned(mem, k) && |blocks| == |old(blocks)|
      ensures mem != 0 <==> Fits(old(blocks)[i], size, k)
    {
      hide Shift, Candidate, Aligned, Fits;
      var b := blocks[i];
      var after;
      mem, after := BlockAlloc(b, size, k);
      if mem != 0 {
        Taken(blocks, live, i, after, Span(mem, size));
        blocks := blocks[i := after];
        live := live + [Span(mem, size)];
      }
    }

    /** A new block in front. */
    method Grow(base: nat, size: nat)
      requires Valid() && base + HEADER + size <= Pow2(ADDRESS_BITS)
      requires forall i: nat | i < |blocks| :: BlocksApart(Block(base, size, base + HEADER), blocks[i])
      modifies this`blocks
      ensures Valid() && blocks == [Block(base, size, base + HEADER)] + old(blocks)
    {
      var b := Block(base, size, base + HEADER);
      forall i: nat | i < |live|
        ensures Owned(live[i], [b] + blocks)
      {
        assert Owned(live[i], blocks);
        var n: nat :| n < |blocks| && Inside(live[i], blocks[n]);
        assert Inside(live[i], ([b] + blocks)[n + 1]);
      }
      forall i: nat, j: nat | i < j < |[b] + blocks|
        ensures BlocksApart(([b] + blocks)[i], ([b] + blocks)[j])
      {
        assert i > 0 ==> BlocksApart(blocks[i - 1], blocks[j - 1]);
      }
      blocks := [b] + blocks;
    }

    /**
     * `Arena::alloc` with the alignment 2 to the `k`. `base` is where memory for a new block
     * would come from, apart from the blocks there are.
     */
    method Alloc(size: nat, k: nat, base: nat) returns (mem: nat)
      requires Valid() && k < ADDRESS_BITS && BlockSize(size) <= INT_MAX
      requires base + HEADER + BlockSize(size) <= Pow2(ADDRESS_BITS)
      requires forall i: nat | i < |blocks| :: BlocksApart(NewBlock(base, size), blocks[i])
      modifies this
      ensures Valid()
      ensures mem == 0 ==> live == old(live) && blocks == [NewBlock(base, size)] + old(blocks)
      ensures mem != 0 <==> (exists i: nat :: i < |old(blocks)| && Fits(old(blocks)[i], size, k))
                            || Fits(NewBlock(base, size), size, k)
      ensures mem != 0 ==> live == old(live) + [Span(mem, size)] && Aligned(mem, k)
      ensures k <= 8 ==> mem != 0
    {
      hide Shift, Candidate, Aligned, Layout, AllOwned, AllDisjoint, BlockSize, Fits;
      var i := 0;
      while i < |blocks|
        invariant Valid() && i <= |blocks| && blocks == old(blocks) && live == old(live)
        invariant forall j: nat | j < i :: !Fits(blocks[j], size, k)
      {
        mem := Take(i, size, k);
        if mem != 0 {
          return;
        }
        i := i + 1;
      }
      Grow(base, BlockSize(size));
      mem := Take(0, size, k);
      if k <= 8 {
        NewBlockSuffices(base, size, k);
      }
    }

    /** `Arena::free` of a span that is live: only the oldest block is looked at. */
    method Free(mem: nat, size: nat, ghost j: nat)
      requires Valid() && j < |live| && live[j] == Span(mem, size)
      modifies this
      ensures Valid() && live == old(Without(live, j))
      ensures |blocks| == |old(blocks)| && forall i: nat | i + 1 < |blocks| :: blocks[i] == old(blocks)[i]
    {
      hide Layout, AllDisjoint;
      assert Owned(live[j], blocks);
      var last := |blocks| - 1;
      if blocks[last].water == mem + size {
        Given(blocks, live, j);
        blocks := blocks[last := blocks[last].(water := mem)];
      } else {
        Forgotten(blocks, live, j);
      }
      live := Without(live, j);
    }
  }

  /** Raising a water level over a new span keeps everything in order. */
  lemma Taken(blocks: seq<Block>, live: seq<Span>, i: nat, after: Block, s: Span)
    requires Layout(blocks) && AllOwned(live, blocks) && AllDisjoint(live) && i < |blocks|
    requires Filled(after) && after.base == blocks[i].base && after.size == blocks[i].size
    requires blocks[i].water <= s.addr && s.addr + s.size == after.water
    ensures Layout(blocks[i := after]) && AllOwned(live + [s], blocks[i := after]) && AllDisjoint(live + [s])
  {
    var bs, more := blocks[i := after], live + [s];
    FreshIsDisjoint(live, blocks, i, s);
    forall j: nat | j < |more|
      ensures Owned(more[j], bs)
    {
      if j < |live| {
        assert Owned(live[j], blocks);
        OwnedAfter(live[j], blocks, i, after);
      } else {
        assert Inside(s, bs[i]);
      }
    }
    assert forall j: nat, n: nat | j < n < |bs| :: BlocksApart(blocks[j], blocks[n]);
  }

  lemma WithoutOne(live: seq<Span>, j: nat)
    requires j < |live| && AllDisjoint(live)
    ensures AllDisjoint(Without(live, j))
    ensures forall i: nat | i < |live| - 1 :: Without(live, j)[i] == live[if i < j then i else i + 1]
  {
    var rest := Without(live, j);
    assert forall i: nat | i < |rest| :: rest[i] == live[if i < j then i else i + 1];
  }

  lemma Forgotten(blocks: seq<Block>, live: seq<Span>, j: nat)
    requires j < |live| && AllOwned(live, blocks) && AllDisjoint(live)
    ensures AllOwned(Without(live, j), blocks) && AllDisjoint(Without(live, j))
  {
    WithoutOne(live, j);
  }

  /** A level that stands at the end of a span stands in the span's own block. */
  lemma OwnLevel(blocks: seq<Block>, s: Span)
    requires Layout(blocks) && blocks != [] && Owned(s, blocks)
    requires blocks[|blocks| - 1].water == s.addr + s.size
    ensures Inside(s, blocks[|blocks| - 1])
  {
    var last := |blocks| - 1;
    var n: nat :| n < |blocks| && Inside(s, blocks[n]);
    assert n < last ==> BlocksApart(blocks[n], blocks[last]);
    assert Filled(blocks[n]) && Filled(blocks[last]);
  }

  /** Lowering the oldest level to the start of the topmost span uncovers no other. */
  lemma Given(blocks: seq<Block>, live: seq<Span>, j: nat)
    requires Layout(blocks) && AllOwned(live, blocks) && AllDisjoint(live) && j < |live| && blocks != []
    requires blocks[|blocks| - 1].water == live[j].addr + live[j].size
    ensures var last := |blocks| - 1;
            Layout(blocks[last := blocks[last].(water := live[j].addr)])
    ensures var last := |blocks| - 1;
            AllOwned(Without(live, j), blocks[last := blocks[last].(water := live[j].addr)])
    ensures AllDisjoint(Without(live, j))
  {
    var last, s := |blocks| - 1, live[j];
    var b := blocks[last].(water := s.addr);
    assert Owned(s, blocks);
    OwnLevel(blocks, s);
    WithoutOne(live, j);
    var rest, bs := Without(live, j), blocks[last := b];
    assert Filled(b);
    assert forall m: nat, n: nat | m < n < |bs| :: BlocksApart(blocks[m], blocks[n]);
    forall i: nat | i < |rest|
      ensures Owned(rest[i], bs)
    {
      var n := if i < j then i else i + 1;
      assert Owned(live[n], blocks);
      assert n < j ==> Disjoint(live[n], live[j]);
      assert n > j ==> Disjoint(live[j], live[n]);
      OwnedAfter(live[n], blocks, last, b);
    }
  }
}
