/** Strings in an arena: a length header in front of each, written and read backwards. */
module ArenaStrings {
  import opened Arena
  import opened Powers

  /** The bytes of memory. */
  type Bytes = nat -> nat

  /** The length to base 128: the first digit plain, the others as 255 less the digit. */
  function Encode(len: nat): (h: seq<nat>)
    ensures h != [] && h[0] < 128
    ensures forall i: nat | 0 < i < |h| :: 128 <= h[i] < 256
  {
    if len < 128 then [len] else Encode(len / 128) + [255 - len % 128]
  }

  function Decode(h: seq<nat>): int {
    if h == [] then 0 else if |h| == 1 then h[0] else Decode(h[..|h| - 1]) * 128 + 255 - h[|h| - 1]
  }

  lemma {:induction false} DecodeEncode(len: nat)
    ensures Decode(Encode(len)) == len
  {
    if len >= 128 {
      DecodeEncode(len / 128);
      var h := Encode(len / 128);
      assert Encode(len)[..|h|] == h;
    }
  }

  /** The header of length `len` ends just below `e`. */
  ghost predicate HeaderAt(bytes: Bytes, e: nat, len: nat) {
    var h := Encode(len);
    |h| <= e && forall i: nat | i < |h| :: bytes(e - |h| + i) == h[i]
  }

  /** The search back for the first byte of the header. */
  method HeaderStart(bytes: Bytes, e: nat, ghost len: nat) returns (s: nat)
    requires HeaderAt(bytes, e, len)
    ensures s == e - |Encode(len)|
  {
    ghost var h := Encode(len);
    s := e - 1;
    while bytes(s) >= 128
      invariant e - |h| <= s < e
      decreases s
    {
      assert bytes(e - |h| + 0) == h[0];
      s := s - 1;
    }
    ghost var i := s - (e - |h|);
    assert bytes(e - |h| + i) == h[i];
  }

  /** `Arena::str_length`. */
  method StrLength(bytes: Bytes, e: nat, ghost len: nat) returns (r: int)
    requires HeaderAt(bytes, e, len)
    ensures r == len
  {
    ghost var h := Encode(len);
    var s := HeaderStart(bytes, e, len);
    assert bytes(e - |h| + 0) == h[0];
    r := bytes(s);
    s := s + 1;
    while s != e
      invariant e - |h| < s <= e && r == Decode(h[..s - (e - |h|)])
      decreases e - s
    {
      ghost var i := s - (e - |h|);
      assert bytes(e - |h| + i) == h[i];
      assert h[..i + 1][..i] == h[..i];
      r := r * 128 + 255 - bytes(s);
      s := s + 1;
    }
    assert h[..|h|] == h;
    DecodeEncode(len);
  }

  function Put(bytes: Bytes, a: nat, v: nat): Bytes {
    (x: nat) => if x == a then v else bytes(x)
  }

  /** The header is written from its last digit down. */
  method WriteHeader(bytes: Bytes, e: nat, len: nat) returns (after: Bytes)
    requires |Encode(len)| <= e
    ensures HeaderAt(after, e, len)
    ensures forall a: nat | !(e - |Encode(len)| <= a < e) :: after(a) == bytes(a)
  {
    ghost var h := Encode(len);
    after := bytes;
    var p, tmp := e - 1, len;
    while tmp >= 128
      invariant |Encode(tmp)| <= |h| && p + 1 == e - |h| + |Encode(tmp)| && h[..|Encode(tmp)|] == Encode(tmp)
      invariant forall i: nat | |Encode(tmp)| <= i < |h| :: after(e - |h| + i) == h[i]
      invariant forall a: nat | !(e - |h| <= a < e) :: after(a) == bytes(a)
    {
      after := Put(after, p, 255 - tmp % 128);
      p, tmp := p - 1, tmp / 128;
    }
    after := Put(after, p, tmp);
  }

  /** How many bytes `str_alloc` asks for: header, text and terminator. */
  method StrSize(len: nat) returns (size: nat)
    ensures size == |Encode(len)| + len + 1
  {
    size := len + 1 + 1;
    var tmp := len;
    while tmp >= 128
      invariant size + |Encode(tmp)| == |Encode(len)| + len + 2
    {
      size := size + 1;
      tmp := tmp / 128;
    }
  }

  /** A string that has been handed out: its address and its length. */
  datatype Str = Str(addr: nat, len: nat) {
    /** The memory it takes, from the header to the terminator. */
    ghost function Memory(): Span
      requires |Encode(len)| <= addr
    {
      Span(addr - |Encode(len)|, |Encode(len)| + len + 1)
    }
  }

  /** The string has its memory, and its header. */
  ghost predicate Stored(bytes: Bytes, s: Str, span: Span) {
    HeaderAt(bytes, s.addr, s.len) && span == s.Memory()
  }

  /** Writing inside one string's memory disturbs no other string. */
  lemma OthersStored(bytes: Bytes, bytes': Bytes, s: Str, span: Span, lo: nat, hi: nat, other: Span)
    requires Stored(bytes, s, span) && Disjoint(span, other)
    requires other.addr <= lo <= hi <= other.addr + other.size
    requires forall a: nat | !(lo <= a < hi) :: bytes'(a) == bytes(a)
    ensures Stored(bytes', s, span)
  {
    hide Encode;
    var h := Encode(s.len);
    forall i: nat | i < |h|
      ensures bytes'(s.addr - |h| + i) == h[i]
    {
      assert bytes(s.addr - |h| + i) == h[i];
    }
  }

  /** An arena of strings. */
  class Strings {
    const heap: Heap
    var bytes: Bytes
    /** The strings handed out, in step with the live memory of the arena. */
    ghost var strings: seq<Str>

    constructor (heap: Heap)
      requires heap.Valid() && heap.live == []
      ensures this.heap == heap && Valid() && strings == []
    {
      this.heap, bytes, strings := heap, _ => 0, [];
    }

    ghost predicate AllStored()
      reads this, heap
    {
      && |strings| == |heap.live|
      && forall k: nat | k < |strings| :: Stored(bytes, strings[k], heap.live[k])
    }

    ghost predicate Valid()
      reads this, heap
    {
      heap.Valid() && AllStored()
    }

    /** `Arena::str_alloc`; `base` as for the arena's `Alloc`. */
    method StrAlloc(len: nat, base: nat) returns (str: nat)
      requires Valid() && BlockSize(|Encode(len)| + len + 1) <= INT_MAX
      requires base + HEADER + BlockSize(|Encode(len)| + len + 1) <= Pow2(ADDRESS_BITS)
      requires forall i: nat | i < |heap.blocks| ::
                 BlocksApart(NewBlock(base, |Encode(len)| + len + 1), heap.blocks[i])
      modifies this, heap
      ensures Valid() && strings == old(strings) + [Str(str, len)]
      ensures |Encode(len)| <= str && forall a: nat | !(str - |Encode(len)| <= a < str) :: bytes(a) == old(bytes)(a)
    {
      hide Encode, BlockSize, Layout, AllOwned, HeaderAt;
      var size := StrSize(len);
      var mem := heap.Alloc(size, 0, base);
      str := mem + (size - len - 1);
      ghost var n := |strings|;
      var after := WriteHeader(bytes, str, len);
      forall k: nat | k < n
        ensures Stored(after, strings[k], heap.live[k])
      {
        assert Disjoint(heap.live[k], heap.live[n]);
        OthersStored(bytes, after, strings[k], heap.live[k], str - |Encode(len)|, str, heap.live[n]);
      }
      bytes := after;
      strings := strings + [Str(str, len)];
    }

    /** `Arena::str_store`: the text and a terminator go behind the header. */
    method StrStore(text: seq<nat>, base: nat) returns (str: nat)
      requires Valid() && BlockSize(|Encode(|text|)| + |text| + 1) <= INT_MAX
      requires base + HEADER + BlockSize(|Encode(|text|)| + |text| + 1) <= Pow2(ADDRESS_BITS)
      requires forall i: nat | i < |heap.blocks| ::
                 BlocksApart(NewBlock(base, |Encode(|text|)| + |text| + 1), heap.blocks[i])
      modifies this, heap
      ensures Valid() && strings == old(strings) + [Str(str, |text|)]
      ensures (forall i: nat | i < |text| :: bytes(str + i) == text[i]) && bytes(str + |text|) == 0
    {
      hide Encode, BlockSize, Layout, AllOwned, HeaderAt;
      str := StrAlloc(|text|, base);
      ghost var n := |strings| - 1;
      var before, full := bytes, text + [0];
      var after := (x: nat) => if str <= x < str + |full| then full[x - str] else before(x);
      forall k: nat | k <= n
        ensures Stored(after, strings[k], heap.live[k])
      {
        if k < n {
          assert Disjoint(heap.live[k], heap.live[n]);
          OthersStored(before, after, strings[k], heap.live[k], str, str + |full|, heap.live[n]);
        } else {
          HeaderKept(before, after, str, |text|);
        }
      }
      bytes := after;
    }

    /** `Arena::str_length`, of any string that was handed out, at any later time. */
    method Length(str: nat, ghost k: nat) returns (len: int)
      requires Valid() && k < |strings| && strings[k].addr == str
      ensures len == strings[k].len
    {
      assert Stored(bytes, strings[k], heap.live[k]);
      len := StrLength(bytes, str, strings[k].len);
    }

    /** `Arena::str_free`: the address and the size are those that were allocated. */
    method StrFree(str: nat, ghost k: nat)
      requires Valid() && k < |strings| && strings[k].addr == str
      modifies this`strings, heap
      ensures Valid() && strings == old(strings[..k] + strings[k + 1..]) && heap.live == old(Without(heap.live, k))
    {
      hide Layout, AllOwned, AllDisjoint;
      assert Stored(bytes, strings[k], heap.live[k]);
      var p := HeaderStart(bytes, str, strings[k].len);
      var n := StrLength(bytes, str, strings[k].len);
      heap.Free(p, n + (str - p) + 1, k);
      strings := strings[..k] + strings[k + 1..];
      forall i: nat | i < |strings|
        ensures Stored(bytes, strings[i], heap.live[i])
      {
        ghost var j := if i < k then i else i + 1;
        assert old(Stored(bytes, strings[j], heap.live[j]));
      }
    }
  }

  lemma HeaderKept(bytes: Bytes, bytes': Bytes, e: nat, len: nat)
    requires HeaderAt(bytes, e, len)
    requires forall a: nat | e - |Encode(len)| <= a < e :: bytes'(a) == bytes(a)
    ensures HeaderAt(bytes', e, len)
  {
  }
}
