/** The character trie of the host table's first level, with its side table for illegal names. */
module CharIndex {
  import opened KeyOrder
  import opened Options

  const LEGAL_CHARS := 38
  const ILLEGAL := 255

  /** `asciiToTable`. */
  function Code(c: char): (i: nat)
    ensures i < LEGAL_CHARS || i == ILLEGAL
  {
    if c == '-' then 0
    else if '0' <= c <= '9' then 1 + (c - '0') as nat
    else if 'A' <= c <= 'Z' then 11 + (c - 'A') as nat
    else if 'a' <= c <= 'z' then 11 + (c - 'a') as nat
    else if c == '_' then 37
    else ILLEGAL
  }

  function Codes(k: string): (r: Key)
    ensures |r| == |k| && forall i: nat | i < |k| :: r[i] == Code(k[i])
  {
    seq(|k|, i requires 0 <= i < |k| => Code(k[i]))
  }

  ghost predicate Lower(k: string) {
    forall i: nat | i < |k| :: !('A' <= k[i] <= 'Z')
  }

  /** Where the first illegal character is, the length if there is none. */
  function FirstIllegal(k: string): (n: nat)
    ensures n <= |k|
    ensures n < |k| ==> Code(k[n]) == ILLEGAL
    ensures forall i: nat | i < n :: Code(k[i]) < LEGAL_CHARS
  {
    if k == "" || Code(k[0]) == ILLEGAL then 0
    else
      var m := FirstIllegal(k[1..]);
      assert forall i: nat | 0 < i <= m :: k[i] == k[1..][i - 1];
      m + 1
  }

  predicate Legal(k: string) {
    FirstIllegal(k) == |k|
  }

  lemma IllegalAt(k: string, i: nat)
    requires i < |k| && i <= FirstIllegal(k) && Code(k[i]) == ILLEGAL
    ensures !Legal(k) && FirstIllegal(k) == i
  {
  }

  lemma LegalAt(k: string, i: nat)
    requires i < |k| && i <= FirstIllegal(k) && Code(k[i]) != ILLEGAL
    ensures i < FirstIllegal(k)
    ensures i + 1 == |k| ==> Legal(k)
  {
  }

  /** Lower-case legal names do not share a slot. */
  lemma CodesInjective(a: string, b: string)
    requires Lower(a) && Lower(b) && Legal(a) && Codes(a) == Codes(b)
    ensures a == b
  {
    forall i: nat | i < |a|
      ensures a[i] == b[i]
    {
      assert Codes(a)[i] == Codes(b)[i];
      CodeInjective(a[i], b[i]);
    }
  }

  lemma CodeInjective(a: char, b: char)
    requires Code(a) == Code(b) < LEGAL_CHARS && !('A' <= a <= 'Z') && !('A' <= b <= 'Z')
    ensures a == b
  {
  }

  ghost function Above(p: Key): Key
    requires p != []
  {
    p[..|p| - 1]
  }

  ghost function Last(p: Key): nat
    requires p != []
  {
    p[|p| - 1]
  }

  lemma Extended(p: Key, c: nat)
    ensures Above(p + [c]) == p && Last(p + [c]) == c
  {
  }

  lemma Rebuilt(p: Key)
    requires p != []
    ensures Above(p) + [Last(p)] == p
  {
  }

  /** `charIndex_el`. */
  class Element<B> {
    var branches: seq<Option<B>>
    var next: seq<Element?<B>>

    constructor ()
      ensures branches == seq(LEGAL_CHARS, _ => None) && next == seq(LEGAL_CHARS, _ => null)
    {
      branches, next := seq(LEGAL_CHARS, _ => None), seq(LEGAL_CHARS, _ => null);
    }
  }

  /** A growing array's store at or just past its end. */
  function Push<T>(q: seq<T>, level: nat, x: T): (r: seq<T>)
    requires level <= |q|
    ensures |r| >= |q| && |r| > level && r[level] == x && r[..level] == q[..level]
  {
    if level < |q| then q[level := x] else q + [x]
  }

  /** `charIndexIterState`: a slot of an element, and above it the slots the walk came through. */
  class Iter<B> {
    var level: nat
    var index: int
    var el: Element<B>
    var q: seq<(Element<B>, nat)>
    ghost var path: Key

    constructor (root: Element<B>)
      ensures level == 0 && index == -1 && el == root && q == [] && path == []
    {
      level, index, el, q, path := 0, -1, root, [], [];
    }

    /** The key of the slot it stands on, the empty key before the first. */
    ghost function Position(): Key
      reads this
    {
      if index < 0 then [] else path + [index]
    }
  }

  class Index<B> {
    const root: Element<B>
    var illegal: map<string, B>
    /** Each element, by the codes that lead to it. */
    ghost var nodes: map<Key, Element<B>>

    constructor ()
      ensures Valid() && fresh(Nodes())
      ensures forall k: string :: Find(k) == None
    {
      root := new Element();
      illegal := map[];
      nodes := map[[] := root];
      new;
      assert forall k: Key :: At(k) == None;
    }

    ghost function Nodes(): set<Element<B>>
      reads this`nodes
    {
      set p | p in nodes :: nodes[p]
    }

    ghost predicate Shaped(p: Key)
      requires p in nodes
      reads this`nodes, {nodes[p]}`branches, {nodes[p]}`next
    {
      |nodes[p].branches| == |nodes[p].next| == LEGAL_CHARS
    }

    /** The `next` entries of an element are the elements one code further. */
    ghost predicate Edges(p: Key)
      requires p in nodes
      reads this`nodes, {nodes[p]}`branches, {nodes[p]}`next
    {
      && |nodes[p].next| == LEGAL_CHARS
      && forall c: nat | c < LEGAL_CHARS :: nodes[p].next[c] == NodeAt(p + [c])
    }

    ghost function NodeAt(p: Key): Element?<B>
      reads this`nodes
    {
      if p in nodes then nodes[p] else null
    }

    ghost predicate Closed()
      reads this`nodes
    {
      && [] in nodes && nodes[[]] == root
      && (forall p | p in nodes && p != [] :: Above(p) in nodes && Last(p) < LEGAL_CHARS)
    }

    ghost predicate Apart()
      reads this`nodes
    {
      forall p, q | p in nodes && q in nodes && nodes[p] == nodes[q] :: p == q
    }

    /** The elements form a tree whose edges are the `next` entries. */
    ghost predicate Tree()
      reads this`nodes, Nodes()`branches, Nodes()`next
    {
      Closed() && Apart() && (forall p | p in nodes :: Shaped(p)) && (forall p | p in nodes :: Edges(p))
    }

    /** The illegal names can be reached. */
    ghost predicate Reached()
      reads this`nodes, this`illegal
    {
      forall k | k in illegal :: !Legal(k) && Codes(k)[..FirstIllegal(k)] in nodes
    }

    ghost predicate Valid()
      reads this`nodes, this`illegal, Nodes()`branches, Nodes()`next
    {
      Tree() && Reached()
    }

    /** What a path of codes is bound to. */
    ghost function At(k: Key): Option<B>
      requires Tree()
      reads this`nodes, Nodes()`branches, Nodes()`next
    {
      if k != [] && Above(k) in nodes && Last(k) < LEGAL_CHARS
      then assert Shaped(Above(k)); nodes[Above(k)].branches[Last(k)]
      else None
    }

    ghost predicate Bound(k: Key)
      requires Tree()
      reads this`nodes, Nodes()`branches, Nodes()`next
    {
      At(k).Some?
    }

    /** What a name is bound to. */
    ghost function Find(k: string): Option<B>
      requires Tree()
      reads this`nodes, this`illegal, Nodes()`branches, Nodes()`next
    {
      if Legal(k) then At(Codes(k))
      else if k in illegal then Some(illegal[k])
      else None
    }

    lemma Root()
      requires Tree()
      ensures [] in nodes && nodes[[]] == root
    {
    }

    lemma Shape(p: Key)
      requires Tree() && p in nodes
      ensures |nodes[p].branches| == |nodes[p].next| == LEGAL_CHARS
    {
      assert Shaped(p);
    }

    lemma Child(p: Key, c: nat)
      requires Tree() && p in nodes && c < LEGAL_CHARS
      ensures |nodes[p].next| == LEGAL_CHARS && nodes[p].next[c] == NodeAt(p + [c])
    {
      assert Edges(p);
    }

    lemma Parent(p: Key)
      requires Tree() && p in nodes && p != []
      ensures Above(p) in nodes && Last(p) < LEGAL_CHARS
    {
    }

    /** Every beginning of a path in the tree is in the tree. */
    lemma {:induction false} Prefixes(p: Key, n: nat)
      requires Tree() && p in nodes && n <= |p|
      ensures p[..n] in nodes
      decreases |p| - n
    {
      hide Tree;
      if n < |p| {
        Prefixes(p, n + 1);
        Parent(p[..n + 1]);
        assert p[..n + 1][..n] == p[..n];
      } else {
        assert p[..n] == p;
      }
    }

    lemma Nameless()
      requires Tree()
      ensures Find("") == None
    {
    }

    lemma IllegalFind(k: string)
      requires Tree() && !Legal(k)
      ensures Find(k) == if k in illegal then Some(illegal[k]) else None
    {
    }

    lemma LegalFind(k: string)
      requires Tree() && Legal(k) && k != "" && Above(Codes(k)) in nodes
      ensures |nodes[Above(Codes(k))].branches| == LEGAL_CHARS && Last(Codes(k)) < LEGAL_CHARS
      ensures Find(k) == nodes[Above(Codes(k))].branches[Last(Codes(k))]
    {
    }

    /** `charIndex::Lookup`. */
    method Lookup(k: string) returns (r: Option<B>)
      requires Valid()
      ensures r == Find(k)
    {
      hide Tree, Reached, Legal, FirstIllegal, Code, Codes, At, Find;
      Root();
      if k == "" {
        Nameless();
        return None;
      }
      var cur := root;
      var i := 0;
      assert Codes(k)[..0] == [];
      while true
        invariant Valid() && i < |k| && i <= FirstIllegal(k) && Codes(k)[..i] in nodes && cur == nodes[Codes(k)[..i]]
        decreases |k| - i
      {
        var index := Code(k[i]);
        Shape(Codes(k)[..i]);
        if index == ILLEGAL {
          IllegalAt(k, i);
          IllegalFind(k);
          return if k in illegal then Some(illegal[k]) else None;
        }
        assert Codes(k)[..i + 1] == Codes(k)[..i] + [index];
        LegalAt(k, i);
        Child(Codes(k)[..i], index);
        if i + 1 == |k| {
          assert Codes(k)[..i + 1] == Codes(k);
          LegalFind(k);
          return cur.branches[index];
        }
        if cur.next[index] == null {
          Missing(k, i + 1);
          return None;
        }
        cur := cur.next[index];
        i := i + 1;
      }
    }

    /** A name whose way ends early is not bound. */
    lemma Missing(k: string, n: nat)
      requires Valid() && 0 < n < |k| && n <= FirstIllegal(k) && Codes(k)[..n] !in nodes
      ensures Find(k) == None
    {
      hide Tree, FirstIllegal, Code;
      var p := Codes(k);
      if Legal(k) {
        if p[..|k| - 1] in nodes {
          assert p[..|k| - 1][..n] == p[..n];
          Prefixes(p[..|k| - 1], n);
        }
      } else if k in illegal {
        assert p[..FirstIllegal(k)][..n] == p[..n];
        Prefixes(p[..FirstIllegal(k)], n);
      }
    }

    /** A new element below `p`. */
    method Grow(cur: Element<B>, ghost p: Key, c: nat) returns (next: Element<B>)
      requires Tree() && p in nodes && cur == nodes[p] && c < LEGAL_CHARS && p + [c] !in nodes
      modifies cur`next, this`nodes
      ensures fresh(next) && nodes == old(nodes)[p + [c] := next] && Tree()
      ensures forall k: Key :: At(k) == old(At(k))
    {
      Shape(p);
      next := new Element();
      ghost var q := p + [c];
      Extended(p, c);
      cur.next := cur.next[c := next];
      nodes := nodes[q := next];
      assert Closed() && Apart();
      forall r | r in nodes
        ensures Shaped(r) && Edges(r)
      {
        assert r != q ==> old(Shaped(r) && Edges(r));
        forall d: nat | d < LEGAL_CHARS
          ensures nodes[r].next[d] == NodeAt(r + [d])
        {
          Extended(r, d);
          assert r == q ==> r + [d] !in old(nodes);
        }
      }
      forall k: Key
        ensures At(k) == old(At(k))
      {
        if k != [] && Above(k) in nodes {
          assert Above(k) != q ==> old(Shaped(Above(k)));
        }
      }
    }

    /** The slot `c` of the element at `p` is filled. */
    method Fill(cur: Element<B>, ghost p: Key, c: nat, b: B)
      requires Tree() && p in nodes && cur == nodes[p] && c < LEGAL_CHARS
      modifies cur`branches
      ensures Tree() && At(p + [c]) == Some(b)
      ensures forall k: Key | k != p + [c] :: At(k) == old(At(k))
    {
      Shape(p);
      Extended(p, c);
      cur.branches := cur.branches[c := Some(b)];
      assert forall r | r in nodes :: old(Shaped(r) && Edges(r));
      assert forall r | r in nodes :: Shaped(r) && Edges(r);
      forall k: Key | k != p + [c]
        ensures At(k) == old(At(k))
      {
        if k != [] && Above(k) in nodes && Last(k) < LEGAL_CHARS {
          Rebuilt(k);
          assert old(Shaped(Above(k)));
          assert nodes[Above(k)] == cur ==> Above(k) == p;
        }
      }
    }

    /** One level down, on a new element if need be. */
    method Descend(cur: Element<B>, ghost p: Key, c: nat) returns (next: Element<B>)
      requires Valid() && p in nodes && cur == nodes[p] && c < LEGAL_CHARS
      modifies cur`next, this`nodes
      ensures Valid() && fresh(Nodes() - old(Nodes()))
      ensures p + [c] in nodes && next == nodes[p + [c]]
      ensures forall k: Key :: At(k) == old(At(k))
    {
      Child(p, c);
      if cur.next[c] == null {
        assert Reached();
        next := Grow(cur, p, c);
        assert Reached();
      } else {
        next := cur.next[c];
      }
    }

    /** `charIndex::Insert`. */
    method Insert(k: string, b: B)
      requires Valid() && k != "" && (Legal(k) ==> Find(k) == None)
      modifies this`illegal, this`nodes, Nodes()`branches, Nodes()`next
      ensures Valid() && fresh(Nodes() - old(Nodes()))
      ensures Find(k) == Some(b)
      ensures Lower(k) ==> forall j: string | Lower(j) && j != k :: Find(j) == old(Find(j))
    {
      hide Tree, Reached, Legal, FirstIllegal, Code, Codes, At, Lower;
      Root();
      ghost var p := Codes(k);
      var cur := root;
      var i := 0;
      assert p[..0] == [];
      while true
        invariant Valid() && fresh(Nodes() - old(Nodes()))
        invariant i < |k| && i <= FirstIllegal(k) && p[..i] in nodes && cur == nodes[p[..i]]
        invariant illegal == old(illegal) && forall q: Key :: At(q) == old(At(q))
        decreases |k| - i
      {
        var index := Code(k[i]);
        assert p[..i + 1] == p[..i] + [index];
        if index == ILLEGAL {
          IllegalAt(k, i);
          PutIllegal(k, b);
          return;
        }
        LegalAt(k, i);
        if i + 1 == |k| {
          assert p[..i + 1] == p;
          Fill(cur, p[..i], index, b);
          forall j: string | Lower(k) && Lower(j) && j != k
            ensures Find(j) == old(Find(j))
          {
            if Legal(j) && Codes(j) == p {
              CodesInjective(j, k);
            }
          }
          return;
        }
        cur := Descend(cur, p[..i], index);
        i := i + 1;
      }
    }

    method PutIllegal(k: string, b: B)
      requires Valid() && !Legal(k) && Codes(k)[..FirstIllegal(k)] in nodes
      modifies this`illegal
      ensures Valid() && Find(k) == Some(b)
      ensures forall j: string | j != k :: Find(j) == old(Find(j))
    {
      hide Tree, Legal, FirstIllegal, Code, Codes, At;
      illegal := illegal[k := b];
    }

    lemma {:induction false} NodeCodes(p: Key)
      requires Tree() && p in nodes
      ensures forall i: nat | i < |p| :: p[i] < LEGAL_CHARS
      decreases |p|
    {
      hide Tree;
      if p != [] {
        Parent(p);
        NodeCodes(Above(p));
        assert forall i: nat | i < |p| - 1 :: p[i] == Above(p)[i];
      }
    }

    lemma BoundCodes(k: Key)
      requires Tree() && Bound(k)
      ensures k != [] && Above(k) in nodes && forall i: nat | i < |k| :: k[i] < LEGAL_CHARS
    {
      NodeCodes(Above(k));
      assert forall i: nat | i < |k| - 1 :: k[i] == Above(k)[i];
    }

    /** Nothing bound lies between `start` and `pos`. */
    ghost predicate Clear(start: Key, pos: Key)
      requires Tree()
      reads this`nodes, Nodes()`branches, Nodes()`next
    {
      forall k: Key | Bound(k) && Before(start, k) :: !Before(k, pos)
    }

    lemma ClearUp(start: Key, p: Key, c: nat)
      requires Tree() && Clear(start, p + [c] + [LEGAL_CHARS])
      ensures Clear(start, p + [c + 1])
    {
      hide Tree, Before, Bound;
      forall k: Key | Bound(k) && Before(start, k) && Before(k, p + [c + 1])
        ensures false
      {
        BoundCodes(k);
        NextUp(k, p, c, LEGAL_CHARS);
      }
    }

    lemma ClearDown(start: Key, pos: Key)
      requires Tree() && Clear(start, pos) && (Bound(pos) ==> pos == start)
      ensures Clear(start, pos + [0])
    {
      hide Tree, Before, Bound;
      forall k: Key | Bound(k) && Before(start, k)
        ensures !Before(k, pos + [0])
      {
        Total(start, k);
        if Before(k, pos + [0]) {
          NextDown(k, pos);
        }
      }
    }

    lemma ClearAcross(start: Key, p: Key, c: nat)
      requires Tree() && Clear(start, p + [c]) && (Bound(p + [c]) ==> p + [c] == start) && p + [c] !in nodes
      ensures Clear(start, p + [c + 1])
    {
      hide Tree, Before, Bound;
      forall k: Key | Bound(k) && Before(start, k)
        ensures !Before(k, p + [c + 1])
      {
        Total(start, k);
        if Before(k, p + [c + 1]) {
          NextAcross(k, p, c);
          BoundCodes(k);
          if k != p + [c] {
            assert Above(k)[..|p| + 1] == p + [c];
            Prefixes(Above(k), |p| + 1);
          }
        }
      }
    }

    lemma ClearEnd(start: Key)
      requires Tree() && Clear(start, [LEGAL_CHARS])
      ensures forall k: Key | Bound(k) :: !Before(start, k)
    {
      hide Tree, Before, Bound;
      forall k: Key | Bound(k)
        ensures !Before(start, k)
      {
        BoundCodes(k);
        Short(k, LEGAL_CHARS);
      }
    }

    /** The slots still ahead of the walk, one past the end of each element among them. */
    ghost function Ahead(pos: Key): set<Key>
      reads this`nodes
    {
      set p, c: nat | p in nodes && c <= LEGAL_CHARS && Before(pos, p + [c]) :: p + [c]
    }

    lemma Advances(pos: Key, p: Key, c: nat)
      requires p in nodes && c <= LEGAL_CHARS && Before(pos, p + [c])
      ensures Ahead(p + [c]) < Ahead(pos)
    {
      hide Before;
      Total(p + [c], p + [c]);
      assert p + [c] in Ahead(pos) && p + [c] !in Ahead(p + [c]);
      forall k | k in Ahead(p + [c])
        ensures k in Ahead(pos)
      {
        Transitive(pos, p + [c], k);
      }
    }

    lemma ClearStart(start: Key, path: Key, index: nat)
      requires Tree() && (start == path + [index] || (start == [] && path + [index] == [0]))
      ensures Clear(start, path + [index])
      ensures start == [] ==> Before(start, path + [index])
    {
      hide Tree;
      forall k: Key | Bound(k) && Before(start, k)
        ensures !Before(k, path + [index])
      {
        Total(start, k);
      }
    }

    lemma GoUp(start: Key, path: Key)
      requires Tree() && path != [] && Clear(start, path + [LEGAL_CHARS]) && Before(start, path + [LEGAL_CHARS])
      ensures Clear(start, Above(path) + [Last(path) + 1])
      ensures Before(path + [LEGAL_CHARS], Above(path) + [Last(path) + 1])
      ensures Before(start, Above(path) + [Last(path) + 1])
    {
      hide Tree, Before, Bound, Clear;
      var p, c := Above(path), Last(path);
      Rebuilt(path);
      ClearUp(start, p, c);
      assert path + [LEGAL_CHARS] == p + [c, LEGAL_CHARS];
      Under(p, [c, LEGAL_CHARS], [c + 1]);
      Short([c, LEGAL_CHARS], c + 1);
      Transitive(start, path + [LEGAL_CHARS], p + [c + 1]);
    }

    lemma GoDown(start: Key, pos: Key, first: bool)
      requires Tree() && Clear(start, pos) && (if first then start == pos else Before(start, pos))
      requires first || !Bound(pos)
      ensures Clear(start, pos + [0]) && Before(pos, pos + [0]) && Before(start, pos + [0])
    {
      hide Tree, Before, Bound, Clear;
      ClearDown(start, pos);
      Short([], 0 + 1);
      assert pos + [] == pos;
      Under(pos, [], [0]);
      Short([], 0);
      if !first {
        Transitive(start, pos, pos + [0]);
      }
    }

    lemma GoAcross(start: Key, p: Key, c: nat, first: bool)
      requires Tree() && Clear(start, p + [c]) && (if first then start == p + [c] else Before(start, p + [c]))
      requires (first || !Bound(p + [c])) && p + [c] !in nodes
      ensures Clear(start, p + [c + 1]) && Before(p + [c], p + [c + 1]) && Before(start, p + [c + 1])
    {
      hide Tree, Before, Bound, Clear;
      ClearAcross(start, p, c);
      Under(p, [c], [c + 1]);
      Short([c], c + 1);
      if !first {
        Transitive(start, p + [c], p + [c + 1]);
      }
    }

    /** The stored slots lead from the root to `el`. */
    ghost predicate Trail(path: Key, el: Element<B>, level: nat, q: seq<(Element<B>, nat)>)
      reads this`nodes
    {
      && path in nodes && el == nodes[path] && |path| == level <= |q|
      && (forall j: nat | j < level :: path[..j] in nodes && q[j] == (nodes[path[..j]], path[j]))
    }

    /** The iterator stands on a slot, or before the first. */
    ghost predicate On(s: Iter<B>)
      reads this`nodes, s
    {
      && Trail(s.path, s.el, s.level, s.q)
      && (if s.index < 0 then s.index == -1 && s.path == [] else s.index < LEGAL_CHARS)
    }

    lemma TrailEnds(path: Key, el: Element<B>, level: nat, q: seq<(Element<B>, nat)>)
      requires Trail(path, el, level, q)
      ensures path in nodes && el == nodes[path] && |path| == level <= |q|
    {
    }

    lemma TrailUp(path: Key, el: Element<B>, level: nat, q: seq<(Element<B>, nat)>)
      requires Tree() && Trail(path, el, level, q) && level > 0
      ensures level <= |q| && path != []
      ensures Trail(Above(path), q[level - 1].0, level - 1, q) && q[level - 1].1 == Last(path) < LEGAL_CHARS
    {
      hide Tree;
      Parent(path);
      var up := Above(path);
      forall j: nat | j < level - 1
        ensures up[..j] in nodes && q[j] == (nodes[up[..j]], up[j])
      {
        assert up[..j] == path[..j];
      }
    }

    lemma TrailDown(path: Key, el: Element<B>, level: nat, q: seq<(Element<B>, nat)>, c: nat, r: seq<(Element<B>, nat)>)
      requires Tree() && Trail(path, el, level, q) && path + [c] in nodes
      requires |r| >= |q| && r[..level] == q[..level] && |r| > level && r[level] == (el, c)
      ensures Trail(path + [c], nodes[path + [c]], level + 1, r)
    {
      hide Tree;
      var down := path + [c];
      forall j: nat | j < level + 1
        ensures down[..j] in nodes && r[j] == (nodes[down[..j]], down[j])
      {
        assert down[..j] == path[..j];
        assert j < level ==> r[j] == r[..level][j] == q[..level][j];
        assert j == level ==> path[..j] == path;
      }
    }

    /** The slot at `path + [c]`. */
    lemma Slot(path: Key, c: nat)
      requires Tree() && path in nodes && c < LEGAL_CHARS
      ensures |nodes[path].branches| == |nodes[path].next| == LEGAL_CHARS
      ensures At(path + [c]) == nodes[path].branches[c] && nodes[path].next[c] == NodeAt(path + [c])
      ensures Bound(path + [c]) == nodes[path].branches[c].Some?
    {
      hide Tree;
      Extended(path, c);
      Shape(path);
      Child(path, c);
    }

    /** `charIndex::iter_next`: on to the next bound key. */
    method IterNext(s: Iter<B>) returns (r: Option<B>)
      requires Valid() && On(s)
      modifies s`level, s`index, s`el, s`q, s`path
      ensures Valid()
      ensures r.None? ==> forall k: Key | Bound(k) :: !Before(old(s.Position()), k)
      ensures r.Some? ==> On(s) && s.index >= 0 && Before(old(s.Position()), s.Position()) && r == At(s.Position())
      ensures r.Some? ==> Clear(old(s.Position()), s.Position())
    {
      hide Tree, Reached, At, Bound, Before, Clear, Trail, Push, Ahead;
      var el: Element<B>, level: nat := s.el, s.level;
      var first := s.index >= 0;
      var index: nat := if first then s.index else 0;
      ghost var path := s.path;
      ghost var start := s.Position();
      TrailEnds(path, el, level, s.q);
      ClearStart(start, path, index);
      while true
        invariant Valid() && Trail(path, el, level, s.q) && path in nodes && el == nodes[path]
        invariant |path| == level <= |s.q|
        invariant if first then index < LEGAL_CHARS else index <= LEGAL_CHARS
        invariant Clear(start, path + [index])
        invariant if first then start == path + [index] else Before(start, path + [index])
        decreases Ahead(path + [index])
      {
        ghost var pos := path + [index];
        if index >= LEGAL_CHARS {
          if level <= 0 {
            assert path + [index] == [LEGAL_CHARS];
            ClearEnd(start);
            return None;
          }
          TrailUp(path, el, level, s.q);
          TrailEnds(Above(path), s.q[level - 1].0, level - 1, s.q);
          GoUp(start, path);
          Advances(pos, Above(path), Last(path) + 1);
          level := level - 1;
          el, index, path := s.q[level].0, s.q[level].1 + 1, Above(path);
        } else {
          Slot(path, index);
          if el.branches[index].Some? && !first {
            r := el.branches[index];
            s.level, s.index, s.el, s.path := level, index, el, path;
            return;
          } else if el.next[index] != null {
            ghost var before := s.q;
            s.q := Push(s.q, level, (el, index));
            TrailDown(path, el, level, before, index, s.q);
            GoDown(start, pos, first);
            Advances(pos, pos, 0);
            path, el, index, level := pos, el.next[index], 0, level + 1;
          } else {
            GoAcross(start, path, index, first);
            Advances(pos, path, index + 1);
            index := index + 1;
          }
        }
        first := false;
      }
    }

    /** `charIndex::iter_first`. */
    method IterFirst(s: Iter<B>) returns (r: Option<B>)
      requires Valid()
      modifies s`level, s`index, s`el, s`q, s`path
      ensures Valid()
      ensures r.None? ==> forall k: Key :: !Bound(k)
      ensures r.Some? ==> On(s) && s.index >= 0 && r == At(s.Position())
      ensures r.Some? ==> Clear([], s.Position())
    {
      hide Tree, Reached, Bound, At, Clear;
      Root();
      s.level, s.index, s.el, s.path := 0, -1, root, [];
      r := IterNext(s);
      if r == None {
        forall k: Key
          ensures !Bound(k)
        {
          assert k != [] ==> Before([], k);
          if Bound(k) {
            BoundCodes(k);
          }
        }
      }
    }

    /** The keys met so far are all the bound keys up to `pos`, in order. */
    ghost predicate Met(keys: seq<Key>, pos: Key)
      requires Tree()
      reads this`nodes, Nodes()`branches, Nodes()`next
    {
      && (forall i: nat, j: nat | i < j < |keys| :: Before(keys[i], keys[j]))
      && (forall i: nat | i < |keys| :: Bound(keys[i]) && (keys[i] == pos || Before(keys[i], pos)))
      && (forall k: Key | Bound(k) && (k == pos || Before(k, pos)) :: k in keys)
    }

    lemma MeetFirst(pos: Key)
      requires Tree() && Bound(pos) && Clear([], pos)
      ensures Met([pos], pos)
    {
      hide Tree, Bound;
      forall k: Key | Bound(k)
        ensures !Before(k, pos)
      {
        BoundCodes(k);
        assert Before([], k);
      }
    }

    lemma MeetNext(keys: seq<Key>, pos: Key, next: Key)
      requires Tree() && Met(keys, pos) && Bound(next) && Before(pos, next) && Clear(pos, next)
      ensures Met(keys + [next], next)
    {
      hide Tree, Bound, Before;
      var more := keys + [next];
      forall i: nat | i < |keys|
        ensures Before(keys[i], next)
      {
        if keys[i] != pos {
          Transitive(keys[i], pos, next);
        }
      }
      forall k: Key | Bound(k) && (k == next || Before(k, next))
        ensures k in more
      {
        Total(k, pos);
        assert k != next ==> k in keys;
      }
    }

    /** One step of a walk: the next key joins the keys met, or all have been met. */
    method WalkOn(s: Iter<B>, ghost keys: seq<Key>) returns (r: Option<B>)
      requires Valid() && On(s) && Met(keys, s.Position())
      modifies s`level, s`index, s`el, s`q, s`path
      ensures Valid() && forall k: Key :: At(k) == old(At(k))
      ensures r.Some? ==> On(s) && At(s.Position()) == r && Met(keys + [s.Position()], s.Position())
      ensures r.Some? ==> Ahead(s.Position()) < old(Ahead(s.Position()))
      ensures r.None? ==> forall k: Key | Bound(k) :: k in keys
    {
      hide Tree, Reached, Before, Clear, Ahead;
      ghost var pos := s.Position();
      r := IterNext(s);
      assert forall k: Key :: At(k) == old(At(k));
      if r.Some? {
        MeetNext(keys, pos, s.Position());
        Advances(pos, s.path, s.index);
      } else {
        forall k: Key | Bound(k)
          ensures k in keys
        {
          Total(k, pos);
        }
      }
    }

    /** A walk with the iterator from beginning to end meets every bound key once, in order. */
    method Walk(s: Iter<B>) returns (branches: seq<B>, ghost keys: seq<Key>)
      requires Valid()
      modifies s`level, s`index, s`el, s`q, s`path
      ensures Valid() && |keys| == |branches|
      ensures forall i: nat, j: nat | i < j < |keys| :: Before(keys[i], keys[j])
      ensures forall k: Key :: Bound(k) <==> k in keys
      ensures forall i: nat | i < |keys| :: At(keys[i]) == Some(branches[i])
    {
      hide Tree, Reached, Before, Clear, Ahead, At;
      branches, keys := [], [];
      var r := IterFirst(s);
      if r == None {
        return;
      }
      MeetFirst(s.Position());
      branches, keys := [r.value], [s.Position()];
      while r.Some?
        invariant Valid() && |keys| == |branches|
        invariant r.Some? ==> On(s) && Met(keys, s.Position())
        invariant r.None? ==> forall k: Key | Bound(k) :: k in keys
        invariant forall i: nat, j: nat | i < j < |keys| :: Before(keys[i], keys[j])
        invariant forall i: nat | i < |keys| :: At(keys[i]) == Some(branches[i])
        decreases r.Some?, if r.Some? then Ahead(s.Position()) else {}
      {
        r := WalkOn(s, keys);
        if r.Some? {
          branches, keys := branches + [r.value], keys + [s.Position()];
        }
      }
    }
  }
}
