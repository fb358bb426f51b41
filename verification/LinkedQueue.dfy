/** The intrusive doubly linked queue and its in-place sort. */
module LinkedQueue {
  import opened StableOrder
  import opened Sequences

  function After(s: seq<Node>, i: nat): Node? {
    if i + 1 < |s| then s[i + 1] else null
  }

  function Ahead(s: seq<Node>, i: nat): Node? {
    if 0 < i <= |s| then s[i - 1] else null
  }

  lemma SwapPlaces(s: seq<Node>, i: nat)
    requires i + 1 < |s|
    ensures Swapped(s, i)[i] == s[i + 1] && Swapped(s, i)[i + 1] == s[i]
    ensures forall k: nat | k < |s| && k != i && k != i + 1 :: Swapped(s, i)[k] == s[k]
    ensures Distinct(s) ==> Distinct(Swapped(s, i))
  {
    var t := Swapped(s, i);
    assert forall k: nat | k < |s| :: t[k] == s[if k == i then i + 1 else if k == i + 1 then i else k];
  }

  class Queue {
    var head: Node?
    var tail: Node?
    /** The elements from head to tail. */
    ghost var elems: seq<Node>

    constructor ()
      ensures Valid() && elems == []
    {
      head, tail, elems := null, null, [];
    }

    ghost predicate Linked(i: nat)
      requires i < |elems|
      reads this`elems, elems`next, elems`prev
    {
      elems[i].next == After(elems, i) && elems[i].prev == Ahead(elems, i)
    }

    ghost predicate Valid()
      reads this, elems`next, elems`prev
    {
      && Distinct(elems)
      && head == (if elems == [] then null else elems[0])
      && tail == (if elems == [] then null else elems[|elems| - 1])
      && forall i: nat | i < |elems| :: Linked(i)
    }

    /** `push`: the `prev` of the element is not written, so the links are right exactly if it was null. */
    method Push(e: Node)
      requires Valid() && e !in elems
      modifies this, elems`prev, e`next
      ensures elems == [e] + old(elems) && e.prev == old(e.prev)
      ensures Valid() <==> e.prev == null
    {
      if head != null {
        head.prev := e;
      }
      e.next := head;
      head := e;
      if tail == null {
        tail := head;
      }
      elems := [e] + elems;
      assert forall i: nat | 0 < i < |elems| :: elems[i] == old(elems)[i - 1] && old(Linked(i - 1));
      assert e.prev != null ==> !Linked(0);
    }

    /** `pop`. */
    method Pop() returns (r: Node?)
      requires Valid()
      modifies this, elems`next, elems`prev
      ensures Valid()
      ensures if old(elems) == [] then r == null && elems == []
              else r == old(elems[0]) && elems == old(elems[1..]) && r.next == null && r.prev == null
    {
      r := head;
      if r != null {
        assert Linked(0);
        head := r.next;
        if head != null {
          head.prev := null;
        }
        r.next := null;
        elems := elems[1..];
        if head == null {
          tail := null;
        }
        assert forall i: nat | i < |elems| :: elems[i] == old(elems)[i + 1] && old(Linked(i + 1));
      }
    }

    /** `remove` of an element of the queue. */
    method Remove(e: Node, ghost k: nat)
      requires Valid() && k < |elems| && elems[k] == e
      modifies this, elems`next, elems`prev
      ensures Valid() && elems == old(elems[..k] + elems[k + 1..]) && e.next == null && e.prev == null
    {
      assert Linked(k);
      if tail == e {
        tail := e.prev;
      }
      if e == head {
        head := e.next;
      }
      if e.prev != null {
        e.prev.next := e.next;
      }
      if e.next != null {
        e.next.prev := e.prev;
      }
      e.prev := null;
      e.next := null;
      elems := elems[..k] + elems[k + 1..];
      forall i: nat | i < |elems|
        ensures Linked(i)
      {
        assert i < k ==> elems[i] == old(elems)[i] && old(Linked(i));
        assert i >= k ==> elems[i] == old(elems)[i + 1] && old(Linked(i + 1));
      }
    }

    /** `insert` after an element of the queue. */
    method InsertAfter(e: Node, after: Node, ghost k: nat)
      requires Valid() && e !in elems && k < |elems| && elems[k] == after
      modifies this, elems`next, elems`prev, e`next, e`prev
      ensures Valid() && elems == old(elems[..k + 1] + [e] + elems[k + 1..])
    {
      assert Linked(k);
      e.prev := after;
      e.next := after.next;
      after.next := e;
      if e.next != null {
        e.next.prev := e;
      }
      if tail == after {
        tail := e;
      }
      elems := elems[..k + 1] + [e] + elems[k + 1..];
      forall i: nat | i < |elems|
        ensures Linked(i)
      {
        assert i <= k ==> elems[i] == old(elems)[i] && old(Linked(i));
        assert i > k + 1 ==> elems[i] == old(elems)[i - 1] && old(Linked(i - 1));
      }
    }

    /** `enqueue`; into an empty queue it pushes. */
    method Enqueue(e: Node)
      requires Valid() && e !in elems
      modifies this, elems`next, elems`prev, e`next, e`prev
      ensures elems == old(elems) + [e]
      ensures Valid() <==> old(elems != [] || e.prev == null)
    {
      if tail != null {
        InsertAfter(e, tail, |elems| - 1);
      } else {
        Push(e);
      }
    }

    /** `append` of a queue with other elements. */
    method Append(q: Queue)
      requires Valid() && q.Valid() && q != this
      requires forall i: nat, j: nat | i < |elems| && j < |q.elems| :: elems[i] != q.elems[j]
      modifies this, elems`next, q.elems`prev
      ensures Valid() && elems == old(elems) + q.elems
    {
      if head == null {
        head, tail, elems := q.head, q.tail, q.elems;
        forall i: nat | i < |elems|
          ensures Linked(i)
        {
          assert old(q.Linked(i));
        }
      } else if q.head != null {
        assert Linked(|elems| - 1) && q.Linked(0);
        tail.next := q.head;
        q.head.prev := tail;
        tail := q.tail;
        elems := elems + q.elems;
        ghost var n := |old(elems)|;
        forall i: nat | i < |elems|
          ensures Linked(i)
        {
          assert i < n ==> elems[i] == old(elems)[i] && old(Linked(i));
          assert i >= n ==> elems[i] == old(q.elems)[i - n] && old(q.Linked(i - n));
        }
      }
    }

    /** The exchange of two neighbours in `sort`, `f` being what follows them. */
    method Exchange(v: Node, n: Node, f: Node?, ghost i: nat)
      requires Valid() && i + 1 < |elems| && v == elems[i] && n == elems[i + 1] && f == After(elems, i + 1)
      modifies this, elems`next, elems`prev
      ensures Valid() && elems == old(Swapped(elems, i))
      ensures elems[i + 1] == v && After(elems, i + 1) == f
    {
      hide Swapped;
      SwapPlaces(elems, i);
      assert Linked(i) && Linked(i + 1);
      if head == v {
        head := n;
      }
      if tail == n {
        tail := v;
      }
      var p := v.prev;
      if p != null {
        p.next := n;
        n.prev := p;
      } else {
        n.prev := null;
      }
      if f != null {
        f.prev := v;
        v.next := f;
      } else {
        v.next := null;
      }
      v.prev := n;
      n.next := v;
      elems := Swapped(elems, i);
      forall k: nat | k < |elems|
        ensures Linked(k)
      {
        assert old(Linked(k));
      }
    }

    /** One pass of `sort`: neighbours in the wrong order are exchanged on the way. */
    method Pass() returns (clean: bool)
      requires Valid() && head != null
      modifies this, elems`next, elems`prev
      ensures Valid() && Stable(old(elems), elems) && elems != []
      ensures forall i: nat | i < |elems| :: elems[i] in old(elems)
      ensures if clean then Sorted(elems) else Inversions(elems) < Inversions(old(elems))
    {
      hide Stable, Inversions, Sorted, Swapped;
      FirstSorted(elems);
      clean := true;
      var v := head;
      assert Linked(0);
      var n := v.next;
      ghost var i := 0;
      while n != null
        invariant Valid() && i < |elems| && v == elems[i] && n == After(elems, i)
        invariant Stable(old(elems), elems) && forall k: nat | k < |elems| :: elems[k] in old(elems)
        invariant if clean then elems == old(elems) && Sorted(elems[..i + 1]) else Inversions(elems) < Inversions(old(elems))
        decreases |elems| - i
      {
        assert Linked(i + 1);
        var f := n.next;
        if n.key < v.key {
          clean := false;
          OneLess(old(elems), elems, i);
          Exchange(v, n, f, i);
        } else {
          SortedMore(elems, i);
          v := n;
        }
        i := i + 1;
        n := f;
      }
      assert elems[..i + 1] == elems;
    }

    /** `SortableQueue::sort`. */
    method Sort()
      requires Valid()
      modifies this, elems`next, elems`prev
      ensures Valid() && Sorted(elems) && Stable(old(elems), elems)
    {
      hide Select, Inversions;
      if head == null {
        return;
      }
      var clean := false;
      while !clean
        invariant Valid() && head != null && Stable(old(elems), elems) && forall i: nat | i < |elems| :: elems[i] in old(elems)
        invariant clean ==> Sorted(elems)
        decreases !clean, Inversions(elems)
      {
        clean := Pass();
      }
    }
  }

  /** An exchange keeps the pass stable and takes away an inversion. */
  lemma OneLess(was: seq<Node>, s: seq<Node>, i: nat)
    requires i + 1 < |s| && s[i + 1].key < s[i].key && Stable(was, s)
    ensures Stable(was, Swapped(s, i)) && Inversions(Swapped(s, i)) < Inversions(s)
    ensures forall k: nat | k < |s| :: Swapped(s, i)[k] in s
  {
    hide Select, Inversions, Swapped;
    SwapStable(s, i);
    SwapPlaces(s, i);
    SwapInversions(s, i);
  }

  lemma SwapInversions(s: seq<Node>, i: nat)
    requires i + 1 < |s| && s[i + 1].key < s[i].key
    ensures Inversions(Swapped(s, i)) < Inversions(s)
  {
    hide Inversions;
    assert s == s[..i] + [s[i], s[i + 1]] + s[i + 2..];
    SwapLowers(s[..i], s[i], s[i + 1], s[i + 2..]);
  }

  lemma FirstSorted(s: seq<Node>)
    requires s != []
    ensures Sorted(s[..1]) && Stable(s, s)
  {
  }

  lemma SortedMore(s: seq<Node>, i: nat)
    requires i + 1 < |s| && s[i].key <= s[i + 1].key
    ensures Sorted(s[..i + 1]) ==> Sorted(s[..i + 2])
  {
    if Sorted(s[..i + 1]) {
      var t := s[..i + 2];
      assert forall k: nat | k <= i :: t[k] == s[..i + 1][k];
    }
  }
}
