/** The order in which a trie walked in preorder meets its keys. */
module KeyOrder {
  type Key = seq<nat>

  /** Lexicographic order, a key before its extensions. */
  ghost predicate Before(a: Key, b: Key) {
    b != [] && (a == [] || a[0] < b[0] || (a[0] == b[0] && Before(a[1..], b[1..])))
  }

  lemma {:induction false} Total(a: Key, b: Key)
    ensures Before(a, b) || Before(b, a) || a == b
    ensures !(Before(a, b) && Before(b, a))
    ensures !Before(a, a)
  {
    if a != [] {
      Total(a[1..], if b != [] then b[1..] else b);
      assert a == [a[0]] + a[1..];
      assert b != [] ==> b == [b[0]] + b[1..];
    }
  }

  lemma {:induction false} Transitive(a: Key, b: Key, c: Key)
    requires Before(a, b) && Before(b, c)
    ensures Before(a, c)
  {
    if a != [] && a[0] == b[0] == c[0] {
      Transitive(a[1..], b[1..], c[1..]);
    }
  }

  /** A common beginning does not count. */
  lemma {:induction false} Under(p: Key, x: Key, y: Key)
    ensures Before(p + x, p + y) <==> Before(x, y)
  {
    if p == [] {
      assert p + x == x && p + y == y;
    } else {
      assert (p + x)[1..] == p[1..] + x && (p + y)[1..] == p[1..] + y;
      Under(p[1..], x, y);
    }
  }

  /** A key that does not start with `p` lies on the same side of everything that does. */
  lemma {:induction false} Aside(p: Key, k: Key, x: Key, y: Key)
    requires !(p <= k)
    ensures Before(k, p + x) <==> Before(k, p + y)
    ensures Before(p + x, k) <==> Before(p + y, k)
  {
    assert p != [];
    assert (p + x)[1..] == p[1..] + x && (p + y)[1..] == p[1..] + y;
    if k != [] && k[0] == p[0] {
      Aside(p[1..], k[1..], x, y);
    }
  }

  lemma Short(x: Key, n: nat)
    ensures Before(x, [n]) <==> x == [] || x[0] < n
  {
  }

  /** Between a key and its first extension there is nothing. */
  lemma NextDown(k: Key, pos: Key)
    requires Before(k, pos + [0])
    ensures k == pos || Before(k, pos)
  {
    hide Before;
    if pos <= k {
      var x := k[|pos|..];
      assert k == pos + x;
      Under(pos, x, [0]);
      Short(x, 0);
    } else {
      Aside(pos, k, [0], []);
      assert pos + [] == pos;
    }
  }

  /** Between `p + [c]` and `p + [c + 1]` there are only extensions of the former. */
  lemma NextAcross(k: Key, p: Key, c: nat)
    requires Before(k, p + [c + 1]) && !Before(k, p + [c])
    ensures p + [c] <= k
  {
    hide Before;
    if p <= k {
      var x := k[|p|..];
      assert k == p + x;
      Under(p, x, [c]);
      Under(p, x, [c + 1]);
      Short(x, c);
      Short(x, c + 1);
      assert k == p + [c] + x[1..];
    } else {
      Aside(p, k, [c], [c + 1]);
    }
  }

  lemma NotBefore(k: Key, q: Key, n: nat)
    requires !Before(k, q + [n])
    ensures !Before(k, q)
    ensures q <= k ==> |k| > |q| && k[|q|] >= n
  {
    hide Before;
    Short([], n);
    Under(q, [], [n]);
    assert q + [] == q;
    if Before(k, q) {
      Transitive(k, q, q + [n]);
    }
    if q <= k {
      var x := k[|q|..];
      assert k == q + x;
      Under(q, x, [n]);
      Short(x, n);
    }
  }

  /** Going back up skips only keys that have a code of `n` or more where the walk has been. */
  lemma NextUp(k: Key, p: Key, c: nat, n: nat)
    requires Before(k, p + [c + 1]) && !Before(k, p + [c] + [n])
    ensures p + [c] <= k && |k| > |p| + 1 && k[|p| + 1] >= n
  {
    hide Before;
    NotBefore(k, p + [c], n);
    NextAcross(k, p, c);
  }
}
