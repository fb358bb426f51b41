/** The 4-ary timer heap on sequences: what `upheap`, `downheap`, `adjustheap` and `reheap` compute. */
module FourHeap {

  datatype Entry<W> = Entry(at: real, w: W)

  /** Slots below HEAP0 are never used. */
  const DHEAP := 4
  const HEAP0 := 3

  /** `HPARENT`. Division truncates towards zero, so the root is its own parent. */
  function Parent(k: nat): (p: nat)
    requires k >= HEAP0
    ensures HEAP0 <= p <= k && (p == k <==> k == HEAP0)
  {
    if k < HEAP0 + 1 then HEAP0 else (k - HEAP0 - 1) / DHEAP + HEAP0
  }

  function FirstChild(k: nat): nat
    requires k >= HEAP0
  {
    DHEAP * (k - HEAP0) + HEAP0 + 1
  }

  lemma ChildrenOf(k: nat, i: nat)
    requires k >= HEAP0 && i > HEAP0
    ensures Parent(i) == k <==> FirstChild(k) <= i < FirstChild(k) + DHEAP
  {
  }

  /** Slots HEAP0 to n + HEAP0 - 1 exist. */
  predicate Sized<W>(h: seq<Entry<W>>, n: nat) {
    n + HEAP0 <= |h|
  }

  /** The slot does not come before its parent. */
  predicate Above<W>(h: seq<Entry<W>>, i: nat)
    requires HEAP0 <= i < |h|
  {
    h[Parent(i)].at <= h[i].at
  }

  ghost predicate Ordered<W>(h: seq<Entry<W>>, n: nat)
    requires Sized(h, n)
  {
    forall i: nat | HEAP0 <= i < n + HEAP0 :: Above(h, i)
  }

  /** The grandparent of every child of `k` precedes the child. */
  ghost predicate Bridged<W>(h: seq<Entry<W>>, n: nat, k: nat)
    requires Sized(h, n) && HEAP0 <= k < n + HEAP0
  {
    k > HEAP0 ==> forall i: nat | HEAP0 < i < n + HEAP0 && Parent(i) == k :: h[Parent(k)].at <= h[i].at
  }

  /** Only the edge from `k` to its parent may be out of order. */
  ghost predicate BrokenUp<W>(h: seq<Entry<W>>, n: nat, k: nat)
    requires Sized(h, n) && HEAP0 <= k < n + HEAP0
  {
    (forall i: nat | HEAP0 <= i < n + HEAP0 && i != k :: Above(h, i)) && Bridged(h, n, k)
  }

  /** Only the edges from `k` to its children may be out of order. */
  ghost predicate BrokenDown<W>(h: seq<Entry<W>>, n: nat, k: nat)
    requires Sized(h, n) && HEAP0 <= k < n + HEAP0
  {
    (forall i: nat | HEAP0 <= i < n + HEAP0 && (i == HEAP0 || Parent(i) != k) :: Above(h, i)) && Bridged(h, n, k)
  }

  /** Only the edges at `k` may be out of order: one key was replaced. */
  ghost predicate BrokenAt<W>(h: seq<Entry<W>>, n: nat, k: nat)
    requires Sized(h, n) && HEAP0 <= k < n + HEAP0
  {
    (forall i: nat | HEAP0 <= i < n + HEAP0 && i != k && (i == HEAP0 || Parent(i) != k) :: Above(h, i)) && Bridged(h, n, k)
  }

  function Swap<W>(h: seq<Entry<W>>, i: nat, j: nat): (r: seq<Entry<W>>)
    requires i < |h| && j < |h|
    ensures |r| == |h|
  {
    h[i := h[j]][j := h[i]]
  }

  function SiftUp<W>(h: seq<Entry<W>>, k: nat): (r: seq<Entry<W>>)
    requires HEAP0 <= k < |h|
    ensures |r| == |h|
    decreases k
  {
    var p := Parent(k);
    if p == k || h[p].at <= h[k].at then h else SiftUp(Swap(h, k, p), p)
  }

  /** The child with the least key, the leftmost of several. */
  function MinChild<W>(h: seq<Entry<W>>, n: nat, k: nat): (m: nat)
    requires Sized(h, n) && HEAP0 <= k && FirstChild(k) < n + HEAP0
    ensures FirstChild(k) <= m < FirstChild(k) + DHEAP && m < n + HEAP0
    ensures forall i: nat | FirstChild(k) <= i < FirstChild(k) + DHEAP && i < n + HEAP0 :: h[m].at <= h[i].at
  {
    var c := FirstChild(k);
    var m1 := if c + 1 < n + HEAP0 && h[c + 1].at < h[c].at then c + 1 else c;
    var m2 := if c + 2 < n + HEAP0 && h[c + 2].at < h[m1].at then c + 2 else m1;
    if c + 3 < n + HEAP0 && h[c + 3].at < h[m2].at then c + 3 else m2
  }

  function SiftDown<W>(h: seq<Entry<W>>, n: nat, k: nat): (r: seq<Entry<W>>)
    requires Sized(h, n) && HEAP0 <= k < n + HEAP0
    ensures |r| == |h|
    decreases n + HEAP0 - k
  {
    if FirstChild(k) >= n + HEAP0 then h else
    var m := MinChild(h, n, k);
    if h[k].at <= h[m].at then h else SiftDown(Swap(h, k, m), n, m)
  }

  function Adjust<W>(h: seq<Entry<W>>, n: nat, k: nat): (r: seq<Entry<W>>)
    requires Sized(h, n) && HEAP0 <= k < n + HEAP0
    ensures |r| == |h|
  {
    if k > HEAP0 && h[k].at <= h[Parent(k)].at then SiftUp(h, k) else SiftDown(h, n, k)
  }

  /** The first `i` rounds of `reheap`. */
  function Rebuild<W>(h: seq<Entry<W>>, i: nat): (r: seq<Entry<W>>)
    requires Sized(h, i)
    ensures |r| == |h|
  {
    if i == 0 then h else SiftUp(Rebuild(h, i - 1), i - 1 + HEAP0)
  }

  /** Outside the first `n` heap slots nothing moves, and within them entries are only permuted. */
  ghost predicate Permuted<W>(h: seq<Entry<W>>, r: seq<Entry<W>>, n: nat)
    requires Sized(h, n)
  {
    && |r| == |h|
    && r[..HEAP0] == h[..HEAP0] && r[n + HEAP0..] == h[n + HEAP0..]
    && multiset(r[HEAP0..n + HEAP0]) == multiset(h[HEAP0..n + HEAP0])
  }

  lemma SwapSlice<T>(a: seq<T>, i: nat, j: nat)
    requires i < |a| && j < |a|
    ensures multiset(a[i := a[j]][j := a[i]]) == multiset(a)
  {
  }

  lemma SwapPermutes<W>(h: seq<Entry<W>>, i: nat, j: nat, n: nat)
    requires Sized(h, n) && HEAP0 <= i < n + HEAP0 && HEAP0 <= j < n + HEAP0
    ensures Permuted(h, Swap(h, i, j), n)
  {
    var r := Swap(h, i, j);
    var a := h[HEAP0..n + HEAP0];
    assert r[HEAP0..n + HEAP0] == a[i - HEAP0 := a[j - HEAP0]][j - HEAP0 := a[i - HEAP0]];
    SwapSlice(a, i - HEAP0, j - HEAP0);
  }

  lemma {:induction false} SiftUpPermutes<W>(h: seq<Entry<W>>, k: nat, n: nat)
    requires Sized(h, n) && HEAP0 <= k < n + HEAP0
    ensures Permuted(h, SiftUp(h, k), n)
    decreases k
  {
    var p := Parent(k);
    if p != k && h[p].at > h[k].at {
      SwapPermutes(h, k, p, n);
      SiftUpPermutes(Swap(h, k, p), p, n);
    }
  }

  lemma {:induction false} SiftDownPermutes<W>(h: seq<Entry<W>>, n: nat, k: nat)
    requires Sized(h, n) && HEAP0 <= k < n + HEAP0
    ensures Permuted(h, SiftDown(h, n, k), n)
    decreases n + HEAP0 - k
  {
    if FirstChild(k) < n + HEAP0 {
      var m := MinChild(h, n, k);
      if h[k].at > h[m].at {
        SwapPermutes(h, k, m, n);
        SiftDownPermutes(Swap(h, k, m), n, m);
      }
    }
  }

  /** `upheap` restores the order when only the edge above `k` is broken. */
  lemma {:induction false} SiftUpOrders<W>(h: seq<Entry<W>>, k: nat, n: nat)
    requires Sized(h, n) && HEAP0 <= k < n + HEAP0 && BrokenUp(h, n, k)
    ensures Ordered(SiftUp(h, k), n)
    decreases k
  {
    var p := Parent(k);
    if p == k || h[p].at <= h[k].at {
      assert Above(h, k);
    } else {
      SwapUpBreaks(h, k, n);
      SiftUpOrders(Swap(h, k, p), p, n);
    }
  }

  lemma SwapUpBreaks<W>(h: seq<Entry<W>>, k: nat, n: nat)
    requires Sized(h, n) && HEAP0 < k < n + HEAP0 && BrokenUp(h, n, k) && h[Parent(k)].at > h[k].at
    ensures BrokenUp(Swap(h, k, Parent(k)), n, Parent(k))
  {
    var p := Parent(k);
    var r := Swap(h, k, p);
    forall i: nat | HEAP0 <= i < n + HEAP0 && i != p ensures Above(r, i) {
      if i != HEAP0 && i != k { assert Above(h, i); }
    }
    forall i: nat | HEAP0 < i < n + HEAP0 && Parent(i) == p ensures p > HEAP0 ==> r[Parent(p)].at <= r[i].at {
      assert Above(h, p);
      if i != k { assert Above(h, i); }
    }
  }

  /** `downheap` restores the order when only edges below `k` are broken. */
  lemma {:induction false} SiftDownOrders<W>(h: seq<Entry<W>>, n: nat, k: nat)
    requires Sized(h, n) && HEAP0 <= k < n + HEAP0 && BrokenDown(h, n, k)
    ensures Ordered(SiftDown(h, n, k), n)
    decreases n + HEAP0 - k
  {
    if FirstChild(k) >= n + HEAP0 {
      forall i: nat | HEAP0 <= i < n + HEAP0 ensures Above(h, i) {
        if i > HEAP0 { ChildrenOf(k, i); }
      }
    } else {
      var m := MinChild(h, n, k);
      if h[k].at <= h[m].at {
        forall i: nat | HEAP0 <= i < n + HEAP0 ensures Above(h, i) {
          if i > HEAP0 { ChildrenOf(k, i); }
        }
      } else {
        SwapDownBreaks(h, n, k);
        SiftDownOrders(Swap(h, k, m), n, m);
      }
    }
  }

  lemma SwapDownBreaks<W>(h: seq<Entry<W>>, n: nat, k: nat)
    requires Sized(h, n) && HEAP0 <= k && FirstChild(k) < n + HEAP0 && BrokenDown(h, n, k)
    requires h[k].at > h[MinChild(h, n, k)].at
    ensures BrokenDown(Swap(h, k, MinChild(h, n, k)), n, MinChild(h, n, k))
  {
    var m := MinChild(h, n, k);
    var r := Swap(h, k, m);
    ChildrenOf(k, m);
    forall i: nat | HEAP0 <= i < n + HEAP0 && (i == HEAP0 || Parent(i) != m) ensures Above(r, i) {
      if i > HEAP0 {
        ChildrenOf(k, i);
        if Parent(i) != k && i != k { assert Above(h, i); }
      }
    }
    forall i: nat | HEAP0 < i < n + HEAP0 && Parent(i) == m ensures r[Parent(m)].at <= r[i].at {
      assert Above(h, i);
    }
  }

  /** `adjustheap` restores the order after one key was replaced. */
  lemma AdjustOrders<W>(h: seq<Entry<W>>, n: nat, k: nat)
    requires Sized(h, n) && HEAP0 <= k < n + HEAP0 && BrokenAt(h, n, k)
    ensures Ordered(Adjust(h, n, k), n) && Permuted(h, Adjust(h, n, k), n)
  {
    if k > HEAP0 && h[k].at <= h[Parent(k)].at {
      forall i: nat | HEAP0 <= i < n + HEAP0 && i != k ensures Above(h, i) {
      }
      SiftUpOrders(h, k, n);
      SiftUpPermutes(h, k, n);
    } else {
      forall i: nat | HEAP0 <= i < n + HEAP0 && (i == HEAP0 || Parent(i) != k) ensures Above(h, i) {
      }
      SiftDownOrders(h, n, k);
      SiftDownPermutes(h, n, k);
    }
  }

  /** `reheap` orders any array. */
  lemma {:induction false} RebuildOrders<W>(h: seq<Entry<W>>, i: nat, n: nat)
    requires i <= n && Sized(h, n)
    ensures Ordered(Rebuild(h, i), i) && Permuted(h, Rebuild(h, i), n)
    decreases i
  {
    if i > 0 {
      RebuildOrders(h, i - 1, n);
      var r := Rebuild(h, i - 1);
      var k := i - 1 + HEAP0;
      forall j: nat | HEAP0 <= j < i + HEAP0 && j != k ensures Above(r, j) {
      }
      SiftUpOrders(r, k, i);
      SiftUpPermutes(r, k, n);
    }
  }

  /** The root of an ordered heap has the least key. */
  lemma {:induction false} RootIsLeast<W>(h: seq<Entry<W>>, n: nat, i: nat)
    requires Sized(h, n) && HEAP0 <= i < n + HEAP0 && Ordered(h, n)
    ensures h[HEAP0].at <= h[i].at
    decreases i
  {
    if i > HEAP0 {
      assert Above(h, i);
      RootIsLeast(h, n, Parent(i));
    }
  }

  /** Replacing the key of one slot breaks at most the edges at that slot. */
  lemma ReplaceBreaks<W>(h: seq<Entry<W>>, n: nat, k: nat, e: Entry<W>)
    requires Sized(h, n) && HEAP0 <= k < n + HEAP0 && Ordered(h, n)
    ensures BrokenAt(h[k := e], n, k)
  {
    var r := h[k := e];
    forall i: nat | HEAP0 <= i < n + HEAP0 && i != k && (i == HEAP0 || Parent(i) != k) ensures Above(r, i) {
      assert Above(h, i);
    }
    forall i: nat | HEAP0 < i < n + HEAP0 && Parent(i) == k ensures k > HEAP0 ==> r[Parent(k)].at <= r[i].at {
      assert Above(h, i) && Above(h, k);
    }
  }
}
