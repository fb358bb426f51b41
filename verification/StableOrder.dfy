/** Sorting by adjacent exchanges: what an exchange keeps and what it lowers. */
module StableOrder {
  /** A list element: its place in the order, and its links. */
  class Node {
    const key: int
    var next: Node?
    var prev: Node?

    constructor (key: int)
      ensures this.key == key && next == null && prev == null
    {
      this.key, next, prev := key, null, null;
    }
  }

  predicate Sorted(s: seq<Node>) {
    forall i: nat, j: nat | i < j < |s| :: s[i].key <= s[j].key
  }

  /** The elements with one key, in their order. */
  function Select(s: seq<Node>, key: int): seq<Node> {
    if s == [] then []
    else Select(s[..|s| - 1], key) + if s[|s| - 1].key == key then [s[|s| - 1]] else []
  }

  /** The same elements, those with equal keys in the same order. */
  ghost predicate Stable(s: seq<Node>, t: seq<Node>) {
    forall key: int :: Select(s, key) == Select(t, key)
  }

  /** How many elements have a greater key. */
  function Greater(s: seq<Node>, key: int): nat {
    if s == [] then 0
    else Greater(s[..|s| - 1], key) + if s[|s| - 1].key > key then 1 else 0
  }

  /** How many pairs stand in the wrong order. */
  function Inversions(s: seq<Node>): nat {
    if s == [] then 0
    else Inversions(s[..|s| - 1]) + Greater(s[..|s| - 1], s[|s| - 1].key)
  }

  lemma SelectSnoc(s: seq<Node>, n: Node, key: int)
    ensures Select(s + [n], key) == Select(s, key) + if n.key == key then [n] else []
  {
    assert (s + [n])[..|s|] == s;
  }

  lemma GreaterSnoc(s: seq<Node>, n: Node, key: int)
    ensures Greater(s + [n], key) == Greater(s, key) + if n.key > key then 1 else 0
  {
    assert (s + [n])[..|s|] == s;
  }

  lemma InversionsSnoc(s: seq<Node>, n: Node)
    ensures Inversions(s + [n]) == Inversions(s) + Greater(s, n.key)
  {
    assert (s + [n])[..|s|] == s;
  }

  lemma {:induction false} SelectAppend(s: seq<Node>, t: seq<Node>, key: int)
    ensures Select(s + t, key) == Select(s, key) + Select(t, key)
  {
    if t == [] {
      assert s + t == s;
    } else {
      var front, last := t[..|t| - 1], t[|t| - 1];
      assert s + t == (s + front) + [last];
      SelectSnoc(s + front, last, key);
      SelectAppend(s, front, key);
    }
  }

  lemma {:induction false} GreaterAppend(s: seq<Node>, t: seq<Node>, key: int)
    ensures Greater(s + t, key) == Greater(s, key) + Greater(t, key)
  {
    if t == [] {
      assert s + t == s;
    } else {
      var front, last := t[..|t| - 1], t[|t| - 1];
      assert s + t == (s + front) + [last];
      GreaterSnoc(s + front, last, key);
      GreaterAppend(s, front, key);
    }
  }

  /** Exchanging two neighbours that stand in the wrong order. */
  ghost function Swapped(s: seq<Node>, i: nat): (r: seq<Node>)
    requires i + 1 < |s|
    ensures |r| == |s|
  {
    s[..i] + [s[i + 1], s[i]] + s[i + 2..]
  }

  lemma PairSelect(v: Node, n: Node, key: int)
    requires v.key != n.key
    ensures Select([v, n], key) == Select([n, v], key)
  {
    assert [v, n] == [v] + [n] && [n, v] == [n] + [v];
    SelectSnoc([v], n, key);
    SelectSnoc([n], v, key);
    assert [v] == [] + [v] && [n] == [] + [n];
    SelectSnoc([], v, key);
    SelectSnoc([], n, key);
  }

  lemma SwapStable(s: seq<Node>, i: nat)
    requires i + 1 < |s| && s[i + 1].key < s[i].key
    ensures Stable(s, Swapped(s, i))
  {
    forall key: int
      ensures Select(s, key) == Select(Swapped(s, i), key)
    {
      var a, v, n, b := s[..i], s[i], s[i + 1], s[i + 2..];
      assert s == a + [v, n] + b;
      SelectAppend(a + [v, n], b, key);
      SelectAppend(a, [v, n], key);
      SelectAppend(a + [n, v], b, key);
      SelectAppend(a, [n, v], key);
      PairSelect(v, n, key);
    }
  }

  /** The exchange takes away exactly one inversion. */
  lemma {:induction false} SwapLowers(a: seq<Node>, v: Node, n: Node, b: seq<Node>)
    requires n.key < v.key
    ensures Inversions(a + [n, v] + b) + 1 == Inversions(a + [v, n] + b)
    decreases |b|
  {
    hide Inversions, Greater;
    if b == [] {
      assert a + [v, n] + b == (a + [v]) + [n] && a + [n, v] + b == (a + [n]) + [v];
      InversionsSnoc(a + [v], n);
      InversionsSnoc(a, v);
      InversionsSnoc(a + [n], v);
      InversionsSnoc(a, n);
      GreaterSnoc(a, v, n.key);
      GreaterSnoc(a, n, v.key);
    } else {
      var front, last := b[..|b| - 1], b[|b| - 1];
      assert a + [v, n] + b == (a + [v, n] + front) + [last];
      assert a + [n, v] + b == (a + [n, v] + front) + [last];
      InversionsSnoc(a + [v, n] + front, last);
      InversionsSnoc(a + [n, v] + front, last);
      SwapLowers(a, v, n, front);
      SameGreater(a, v, n, front, last.key);
    }
  }

  lemma SameGreater(a: seq<Node>, v: Node, n: Node, b: seq<Node>, key: int)
    ensures Greater(a + [v, n] + b, key) == Greater(a + [n, v] + b, key)
  {
    hide Greater;
    GreaterAppend(a + [v, n], b, key);
    GreaterAppend(a + [n, v], b, key);
    assert a + [v, n] == a + [v] + [n] && a + [n, v] == a + [n] + [v];
    GreaterSnoc(a + [v], n, key);
    GreaterSnoc(a, v, key);
    GreaterSnoc(a + [n], v, key);
    GreaterSnoc(a, n, key);
  }

  lemma {:induction false} SelectKeys(s: seq<Node>, key: int)
    ensures forall i: nat | i < |Select(s, key)| :: Select(s, key)[i].key == key && Select(s, key)[i] in s
  {
    if s != [] {
      SelectKeys(s[..|s| - 1], key);
      assert s == s[..|s| - 1] + [s[|s| - 1]];
    }
  }

  lemma {:induction false} CountSelected(s: seq<Node>, n: Node)
    ensures multiset(s)[n] == multiset(Select(s, n.key))[n]
  {
    if s != [] {
      CountSelected(s[..|s| - 1], n);
      assert s == s[..|s| - 1] + [s[|s| - 1]];
    }
  }

  /** A stable rearrangement is a permutation. */
  lemma StablePermutes(s: seq<Node>, t: seq<Node>)
    requires Stable(s, t)
    ensures multiset(s) == multiset(t)
  {
    hide Select;
    forall n: Node | n in multiset(s) + multiset(t)
      ensures multiset(s)[n] == multiset(t)[n]
    {
      CountSelected(s, n);
      CountSelected(t, n);
    }
  }

  /** The last of a sorted list is the last of its key's selection, and the greatest. */
  lemma LastSelected(s: seq<Node>, t: seq<Node>)
    requires s != [] && Stable(s, t) && Sorted(t)
    ensures t != [] && s[|s| - 1].key <= t[|t| - 1].key
  {
    var key := s[|s| - 1].key;
    assert Select(s, key) != [];
    SelectKeys(t, key);
    assert Select(t, key)[0] in t;
  }

  /** There is one stable way to sort. */
  lemma {:induction false} StableSortIsUnique(s: seq<Node>, t: seq<Node>)
    requires Sorted(s) && Sorted(t) && Stable(s, t)
    ensures s == t
    decreases |s|
  {
    if s == [] {
      if t != [] {
        LastSelected(t, s);
      }
    } else {
      LastSelected(s, t);
      LastSelected(t, s);
      var a, b := s[..|s| - 1], t[..|t| - 1];
      var x, y := s[|s| - 1], t[|t| - 1];
      assert s == a + [x] && t == b + [y];
      assert Select(s, x.key) == Select(a, x.key) + [x] && Select(t, x.key) == Select(b, x.key) + [y];
      assert x == (Select(a, x.key) + [x])[|Select(a, x.key)|] == (Select(b, x.key) + [y])[|Select(b, x.key)|] == y;
      forall key: int
        ensures Select(a, key) == Select(b, key)
      {
        assert Select(s, key) == Select(t, key);
        DropLast(Select(a, key), Select(b, key), if x.key == key then [x] else []);
      }
      StableSortIsUnique(a, b);
    }
  }

  lemma DropLast(a: seq<Node>, b: seq<Node>, c: seq<Node>)
    requires a + c == b + c
    ensures a == b
  {
    assert |a| == |b|;
    assert a == (a + c)[..|a|] && b == (b + c)[..|b|];
  }
}
