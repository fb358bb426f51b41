/** The timer heap in place: entries move through an array and every watcher records its slot. */
module TimerHeap {
  import opened FourHeap

  /** The fields of `ev_watcher`, `ev_watcher_time` and `ev_timer` that the event core updates. */
  class Watcher {
    var active: int
    var pending: int
    var priority: int
    var at: real
    var repeat: real

    constructor (after: real, again: real, pri: int)
      ensures active == 0 && pending == 0 && at == after && repeat == again && priority == pri
    {
      active, pending, at, repeat, priority := 0, 0, after, again, pri;
    }
  }

  type Slot = Entry<Watcher>

  ghost function Owners(h: seq<Slot>, n: nat): set<Watcher>
    requires Sized(h, n)
  {
    set i: nat | HEAP0 <= i < n + HEAP0 :: h[i].w
  }

  /** No watcher occupies two slots. */
  ghost predicate Single(h: seq<Slot>, n: nat)
    requires Sized(h, n)
  {
    forall i: nat, j: nat | HEAP0 <= i < j < n + HEAP0 :: h[i].w != h[j].w
  }

  /** Every watcher but the one in slot `k` records its slot. */
  ghost predicate LinkedBut(h: seq<Slot>, n: nat, k: nat)
    requires Sized(h, n)
    reads Owners(h, n)`active
  {
    forall i: nat | HEAP0 <= i < n + HEAP0 && i != k :: h[i].w.active == i
  }

  ghost predicate Linked(h: seq<Slot>, n: nat)
    requires Sized(h, n)
    reads Owners(h, n)`active
  {
    forall i: nat | HEAP0 <= i < n + HEAP0 :: h[i].w.active == i
  }

  lemma SingleSwap(h: seq<Slot>, n: nat, i: nat, j: nat)
    requires Sized(h, n) && HEAP0 <= i < n + HEAP0 && HEAP0 <= j < n + HEAP0 && i != j && Single(h, n)
    ensures Single(Swap(h, i, j), n) && Owners(Swap(h, i, j), n) == Owners(h, n)
  {
    var r := Swap(h, i, j);
    forall x: nat, y: nat | HEAP0 <= x < y < n + HEAP0 ensures r[x].w != r[y].w {
      var x' := if x == i then j else if x == j then i else x;
      var y' := if y == i then j else if y == j then i else y;
      assert r[x] == h[x'] && r[y] == h[y'];
    }
    forall w ensures w in Owners(r, n) <==> w in Owners(h, n) {
      if w in Owners(r, n) {
        var x: nat :| HEAP0 <= x < n + HEAP0 && r[x].w == w;
        assert h[if x == i then j else if x == j then i else x].w == w;
      }
      if w in Owners(h, n) {
        var x: nat :| HEAP0 <= x < n + HEAP0 && h[x].w == w;
        assert r[if x == i then j else if x == j then i else x].w == w;
      }
    }
  }

  lemma OwnerAt(h: seq<Slot>, n: nat, i: nat)
    requires Sized(h, n) && HEAP0 <= i < n + HEAP0
    ensures h[i].w in Owners(h, n)
  {
  }

  /** Towards the root. */
  method UpHeap(heap: array<Slot>, k: nat, ghost n: nat)
    requires Sized(heap[..], n) && HEAP0 <= k < n + HEAP0
    requires Single(heap[..], n) && LinkedBut(heap[..], n, k)
    modifies heap, Owners(heap[..], n)`active
    ensures heap[..] == SiftUp(old(heap[..]), k)
    ensures Single(heap[..], n) && Linked(heap[..], n) && Owners(heap[..], n) == old(Owners(heap[..], n))
  {
    ghost var ws := Owners(heap[..], n);
    var he := heap[k];
    var j := k;
    ghost var h := heap[..];
    while true
      invariant HEAP0 <= j <= k && |h| == heap.Length && h == heap[..][j := he]
      invariant SiftUp(h, j) == SiftUp(old(heap[..]), k)
      invariant Single(h, n) && Owners(h, n) == ws
      invariant forall i: nat | HEAP0 <= i < n + HEAP0 && i != j :: heap[i].w.active == i
      decreases j
    {
      var p := Parent(j);
      if p == j || heap[p].at <= he.at {
        break;
      }
      SingleSwap(h, n, j, p);
      assert h[p].w in ws && h[p] == heap[p];
      h := Swap(h, j, p);
      heap[j] := heap[p];
      heap[j].w.active := j;
      assert forall i: nat | HEAP0 <= i < n + HEAP0 && i != p && i != j :: heap[i].w != heap[j].w;
      j := p;
      assert h == heap[..][j := he];
    }
    assert h[j].w in ws;
    heap[j] := he;
    he.w.active := j;
    assert heap[..] == h;
  }

  /** The minimum search of `downheap`: all four children are compared without bounds checks when they exist. */
  method FindMinChild(heap: array<Slot>, n: nat, k: nat) returns (m: nat)
    requires Sized(heap[..], n) && HEAP0 <= k && FirstChild(k) < n + HEAP0
    ensures m == MinChild(heap[..], n, k)
  {
    var pos, end := FirstChild(k), n + HEAP0;
    m := pos;
    if pos + DHEAP - 1 < end {
      if heap[pos + 1].at < heap[m].at { m := pos + 1; }
      if heap[pos + 2].at < heap[m].at { m := pos + 2; }
      if heap[pos + 3].at < heap[m].at { m := pos + 3; }
    } else {
      if pos + 1 < end && heap[pos + 1].at < heap[m].at { m := pos + 1; }
      if pos + 2 < end && heap[pos + 2].at < heap[m].at { m := pos + 2; }
      // A fourth child would have taken the other branch.
    }
  }

  /** The entry in the slot itself does not matter for its least child. */
  lemma MinChildOfHole(h: seq<Slot>, n: nat, k: nat, e: Slot)
    requires Sized(h, n) && HEAP0 <= k < n + HEAP0 && FirstChild(k) < n + HEAP0
    ensures MinChild(h[k := e], n, k) == MinChild(h, n, k) > k
  {
  }

  /** Away from the root. */
  method DownHeap(heap: array<Slot>, n: nat, k: nat)
    requires Sized(heap[..], n) && HEAP0 <= k < n + HEAP0
    requires Single(heap[..], n) && LinkedBut(heap[..], n, k)
    modifies heap, Owners(heap[..], n)`active
    ensures heap[..] == SiftDown(old(heap[..]), n, k)
    ensures Single(heap[..], n) && Linked(heap[..], n) && Owners(heap[..], n) == old(Owners(heap[..], n))
  {
    hide MinChild, Owners;
    ghost var ws := Owners(heap[..], n);
    var he := heap[k];
    var j := k;
    ghost var h := heap[..];
    while FirstChild(j) < n + HEAP0
      invariant HEAP0 <= j < n + HEAP0 && |h| == heap.Length && h == heap[..][j := he]
      invariant SiftDown(h, n, j) == SiftDown(old(heap[..]), n, k)
      invariant Single(h, n) && Owners(h, n) == ws
      invariant forall i: nat | HEAP0 <= i < n + HEAP0 && i != j :: heap[i].w.active == i
      decreases n + HEAP0 - j
    {
      var m := FindMinChild(heap, n, j);
      MinChildOfHole(heap[..], n, j, he);
      if he.at <= heap[m].at {
        break;
      }
      SingleSwap(h, n, j, m);
      OwnerAt(h, n, m);
      h := Swap(h, j, m);
      heap[j] := heap[m];
      heap[j].w.active := j;
      assert forall i: nat | HEAP0 <= i < n + HEAP0 && i != m && i != j :: heap[i].w != heap[j].w;
      j := m;
      assert h == heap[..][j := he];
    }
    OwnerAt(h, n, j);
    heap[j] := he;
    he.w.active := j;
    assert heap[..] == h;
  }

  /** Moves one entry to a place where it fits. */
  method AdjustHeap(heap: array<Slot>, n: nat, k: nat)
    requires Sized(heap[..], n) && HEAP0 <= k < n + HEAP0
    requires Single(heap[..], n) && LinkedBut(heap[..], n, k)
    modifies heap, Owners(heap[..], n)`active
    ensures heap[..] == Adjust(old(heap[..]), n, k)
    ensures Single(heap[..], n) && Linked(heap[..], n) && Owners(heap[..], n) == old(Owners(heap[..], n))
  {
    if k > HEAP0 && heap[k].at <= heap[Parent(k)].at {
      UpHeap(heap, k, n);
    } else {
      DownHeap(heap, n, k);
    }
  }

  /** Rebuilds the heap from any order of its entries. */
  method ReHeap(heap: array<Slot>, n: nat)
    requires Sized(heap[..], n) && Single(heap[..], n) && Linked(heap[..], n)
    modifies heap, Owners(heap[..], n)`active
    ensures heap[..] == Rebuild(old(heap[..]), n) && Ordered(heap[..], n)
    ensures Single(heap[..], n) && Linked(heap[..], n) && Owners(heap[..], n) == old(Owners(heap[..], n))
  {
    ghost var ws := Owners(heap[..], n);
    var i := 0;
    while i < n
      invariant i <= n && heap[..] == Rebuild(old(heap[..]), i)
      invariant Single(heap[..], n) && Linked(heap[..], n) && Owners(heap[..], n) == ws
    {
      UpHeap(heap, i + HEAP0, n);
      i := i + 1;
    }
    RebuildOrders(old(heap[..]), n, n);
  }

  ghost function Entries(h: seq<Slot>, n: nat): set<Slot>
    requires Sized(h, n)
  {
    set i: nat | HEAP0 <= i < n + HEAP0 :: h[i]
  }

  /** A permutation of the slots keeps the set of entries. */
  lemma PermutedEntries(h: seq<Slot>, r: seq<Slot>, n: nat)
    requires Sized(h, n) && Permuted(h, r, n)
    ensures Entries(r, n) == Entries(h, n)
  {
    var a, b := h[HEAP0..n + HEAP0], r[HEAP0..n + HEAP0];
    forall e ensures e in Entries(r, n) <==> e in Entries(h, n) {
      assert e in multiset(a) <==> e in multiset(b);
      if e in Entries(r, n) {
        var i: nat :| HEAP0 <= i < n + HEAP0 && r[i] == e;
        assert b[i - HEAP0] == e;
        assert e in a;
        var j: nat :| j < |a| && a[j] == e;
        assert h[j + HEAP0] == e;
      }
      if e in Entries(h, n) {
        var i: nat :| HEAP0 <= i < n + HEAP0 && h[i] == e;
        assert a[i - HEAP0] == e;
        assert e in b;
        var j: nat :| j < |b| && b[j] == e;
        assert r[j + HEAP0] == e;
      }
    }
  }
}
