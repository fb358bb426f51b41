/** The interest set of the select backend: two growing bit vectors, one for reads and one for writes. */
module SelectTable {
  import opened FdInterest

  const NFDBITS := 64

  /** An `fd_mask`, least significant bit first. */
  type Word = w: seq<bool> | |w| == NFDBITS witness seq(NFDBITS, _ => false)

  const NONE: Word := seq(NFDBITS, _ => false)

  /** Bit `fd` of a vector, clear beyond its end. */
  predicate Bit(vec: seq<Word>, fd: nat) {
    fd / NFDBITS < |vec| && vec[fd / NFDBITS][fd % NFDBITS]
  }

  /** `|=` and, if the bit is not wanted, `&= ~`. */
  function Put(vec: seq<Word>, fd: nat, on: bool): (r: seq<Word>)
    requires fd / NFDBITS < |vec|
    ensures |r| == |vec| && Bit(r, fd) == on
    ensures forall f: nat | f != fd :: Bit(r, f) == Bit(vec, f)
  {
    var word, bit := fd / NFDBITS, fd % NFDBITS;
    var marked := vec[word := vec[word][bit := true]];
    var r := if on then marked else marked[word := marked[word][bit := false]];
    assert forall f: nat | f != fd :: f / NFDBITS != word || f % NFDBITS != bit;
    r
  }

  class Select {
    var vecRi: seq<Word>
    var vecWi: seq<Word>

    constructor ()
      ensures Shows([])
    {
      vecRi, vecWi := [], [];
    }

    /** Each vector holds exactly the fds whose mask has its event. */
    ghost predicate Shows(events: seq<bv8>)
      reads this
    {
      && |vecRi| == |vecWi|
      && (forall f: nat :: Bit(vecRi, f) == (MaskOf(events, f) & EV_READ != 0))
      && (forall f: nat :: Bit(vecWi, f) == (MaskOf(events, f) & EV_WRITE != 0))
    }

    /** The vectors reach `word`, new words clear. */
    method NeedWord(word: nat)
      requires |vecRi| == |vecWi|
      modifies this
      ensures |vecRi| == |vecWi| > word
      ensures forall f: nat :: Bit(vecRi, f) == old(Bit(vecRi, f)) && Bit(vecWi, f) == old(Bit(vecWi, f))
    {
      while |vecRi| <= word
        invariant |vecRi| == |vecWi|
        invariant forall f: nat :: Bit(vecRi, f) == old(Bit(vecRi, f)) && Bit(vecWi, f) == old(Bit(vecWi, f))
        decreases word - |vecRi|
      {
        vecRi, vecWi := vecRi + [NONE], vecWi + [NONE];
      }
    }

    /** `select_modify`. */
    method Modify(fd: nat, oev: bv8, nev: bv8, ghost events: seq<bv8>)
      requires Shows(events) && fd < |events| && events[fd] == oev
      modifies this
      ensures Shows(events[fd := nev])
    {
      if oev == nev {
        assert events[fd := nev] == events;
        return;
      }
      NeedWord(fd / NFDBITS);
      hide Bit, Put;
      vecRi := Put(vecRi, fd, nev & EV_READ != 0);
      vecWi := Put(vecWi, fd, nev & EV_WRITE != 0);
      assert forall f: nat | f != fd :: MaskOf(events[fd := nev], f) == MaskOf(events, f);
    }
  }
}
