/** Leaf lists in ascending id order: the representation of first, last and follow sets. */
module NodeLists {
  import opened RegexTree
  import opened Glushkov

  ghost predicate Sorted(a: seq<Node>) {
    forall i: nat, j: nat | i < j < |a| :: a[i].id < a[j].id
  }

  ghost function Elems(a: seq<Node>): set<Node> {
    set p | p in a
  }

  /** Within one universe of leaves an id names at most one leaf. */
  ghost predicate UniqueIds(u: set<Node>) {
    forall p, q | p in u && q in u && p.id == q.id :: p == q
  }

  /** A list that stands for a subset of the universe. */
  ghost predicate ListOver(a: seq<Node>, u: set<Node>) {
    Sorted(a) && forall p | p in a :: p in u
  }

  lemma {:induction false} UnsharedUnique(n: Node)
    requires Unshared(n)
    ensures UniqueIds(Leaves(n))
  {
    match n
    case End(_, _) =>
    case Epsilon(_) =>
    case CClass(_, _) =>
    case Cat(_, l, r) => UnsharedUnique(l); UnsharedUnique(r);
    case Or(_, l, r) => UnsharedUnique(l); UnsharedUnique(r);
    case Star(_, c) => UnsharedUnique(c);
    case Paren(_, c) => UnsharedUnique(c);
  }

  function Merge(a: seq<Node>, b: seq<Node>): seq<Node> {
    if a == [] then b
    else if b == [] then a
    else if a[0] == b[0] then [a[0]] + Merge(a[1..], b[1..])
    else if a[0].id < b[0].id then [a[0]] + Merge(a[1..], b)
    else [b[0]] + Merge(a, b[1..])
  }

  lemma ConsSorted(p: Node, a: seq<Node>)
    requires Sorted(a) && forall q | q in a :: p.id < q.id
    ensures Sorted([p] + a) && Elems([p] + a) == {p} + Elems(a)
  {
    var b := [p] + a;
    forall i: nat, j: nat | i < j < |b| ensures b[i].id < b[j].id {
      assert b[j] == a[j - 1] && a[j - 1] in a;
    }
    assert forall q :: q in b <==> q == p || q in a;
  }

  lemma HeadTail(a: seq<Node>)
    requires Sorted(a) && a != []
    ensures Sorted(a[1..]) && Elems(a) == {a[0]} + Elems(a[1..])
    ensures forall q | q in Elems(a[1..]) :: a[0].id < q.id
  {
    assert a == [a[0]] + a[1..];
  }

  /** The list whose head the merge takes next. */
  function TakesLeft(a: seq<Node>, b: seq<Node>): bool {
    a != [] && (b == [] || a[0] == b[0] || a[0].id < b[0].id)
  }

  function TakesRight(a: seq<Node>, b: seq<Node>): bool {
    b != [] && (a == [] || a[0] == b[0] || a[0].id >= b[0].id)
  }

  lemma MergeStep(a: seq<Node>, b: seq<Node>)
    requires a != [] || b != []
    ensures
      var a', b' := if TakesLeft(a, b) then a[1..] else a, if TakesRight(a, b) then b[1..] else b;
      Merge(a, b) == [if TakesLeft(a, b) then a[0] else b[0]] + Merge(a', b')
  {
  }

  lemma EmptyList()
    ensures Sorted([]) && Elems([]) == {}
  {
  }

  /** Merging two lists is union of the sets they stand for. */
  lemma {:induction false} MergeIsUnion(a: seq<Node>, b: seq<Node>, u: set<Node>)
    requires ListOver(a, u) && ListOver(b, u) && UniqueIds(u)
    ensures ListOver(Merge(a, b), u) && Elems(Merge(a, b)) == Elems(a) + Elems(b)
    decreases |a| + |b|
  {
    hide Sorted, Elems;
    EmptyList();
    if a != [] && b != [] {
      HeadTail(a);
      HeadTail(b);
      var a0, b0 := a[0], b[0];
      if a0 == b0 {
        MergeIsUnion(a[1..], b[1..], u);
        MergeHead(a0, Merge(a[1..], b[1..]), Elems(a[1..]), Elems(b[1..]), u);
      } else if a0.id < b0.id {
        MergeIsUnion(a[1..], b, u);
        MergeHead(a0, Merge(a[1..], b), Elems(a[1..]), Elems(b), u);
      } else {
        MergeIsUnion(a, b[1..], u);
        MergeHead(b0, Merge(a, b[1..]), Elems(a), Elems(b[1..]), u);
      }
    }
  }

  lemma MergeHead(p: Node, m: seq<Node>, x: set<Node>, y: set<Node>, u: set<Node>)
    requires ListOver(m, u) && p in u && Elems(m) == x + y
    requires forall q | q in x :: p.id < q.id
    requires forall q | q in y :: p.id < q.id
    ensures ListOver([p] + m, u) && Elems([p] + m) == {p} + x + y
  {
    forall q | q in m ensures p.id < q.id {
      assert q in Elems(m);
    }
    ConsSorted(p, m);
  }

  /** A set has exactly one list. */
  lemma {:induction false} ListsAreCanonical(a: seq<Node>, b: seq<Node>)
    requires Sorted(a) && Sorted(b) && Elems(a) == Elems(b)
    ensures a == b
    decreases |a|
  {
    assert a != [] ==> a[0] in Elems(a);
    assert b != [] ==> b[0] in Elems(b);
    if a != [] {
      HeadTail(a);
      HeadTail(b);
      assert a[0] in Elems(b) && b[0] in Elems(a);
      assert a[0] == b[0];
      assert a[0] !in Elems(a[1..]) && b[0] !in Elems(b[1..]);
      assert Elems(a[1..]) == Elems(a) - {a[0]};
      assert Elems(b[1..]) == Elems(b) - {b[0]};
      ListsAreCanonical(a[1..], b[1..]);
      assert a == [a[0]] + a[1..] && b == [b[0]] + b[1..];
    }
  }

  /** One round of the merge loop appends the head the merge takes next. */
  lemma MergeRound(a: seq<Node>, b: seq<Node>, i: nat, j: nat, r: seq<Node>)
    requires i <= |a| && j <= |b| && (i < |a| || j < |b|)
    ensures
      var x, y := a[i..], b[j..];
      var i', j' := if TakesLeft(x, y) then i + 1 else i, if TakesRight(x, y) then j + 1 else j;
      i' <= |a| && j' <= |b| &&
      r + Merge(x, y) == r + [if TakesLeft(x, y) then a[i] else b[j]] + Merge(a[i'..], b[j'..])
  {
    var x, y := a[i..], b[j..];
    MergeStep(x, y);
    var i', j' := if TakesLeft(x, y) then i + 1 else i, if TakesRight(x, y) then j + 1 else j;
    assert a[i'..] == if TakesLeft(x, y) then x[1..] else x;
    assert b[j'..] == if TakesRight(x, y) then y[1..] else y;
    Assoc(r, [if TakesLeft(x, y) then a[i] else b[j]], Merge(a[i'..], b[j'..]));
  }

  lemma Assoc<T>(a: seq<T>, b: seq<T>, c: seq<T>)
    ensures a + (b + c) == a + b + c
  {
  }

  /** The merge loop of `re_union_nodes`. */
  method UnionNodes(a: seq<Node>, b: seq<Node>) returns (r: seq<Node>)
    ensures r == Merge(a, b)
    ensures Sorted(a) && Sorted(b) && UniqueIds(Elems(a) + Elems(b)) ==> Sorted(r) && Elems(r) == Elems(a) + Elems(b)
  {
    if Sorted(a) && Sorted(b) && UniqueIds(Elems(a) + Elems(b)) {
      MergeIsUnion(a, b, Elems(a) + Elems(b));
    }
    hide Sorted, Elems, UniqueIds;
    var i, j := 0, 0;
    r := [];
    assert a[0..] == a && b[0..] == b;
    while i < |a| || j < |b|
      invariant i <= |a| && j <= |b|
      invariant Merge(a, b) == r + Merge(a[i..], b[j..])
      decreases |a| - i + |b| - j
    {
      MergeRound(a, b, i, j, r);
      if i < |a| && j < |b| && a[i] == b[j] {
        r := r + [a[i]];
        i, j := i + 1, j + 1;
      } else if i < |a| && (j == |b| || a[i].id < b[j].id) {
        r := r + [a[i]];
        i := i + 1;
      } else {
        r := r + [b[j]];
        j := j + 1;
      }
    }
  }

  /** `re_equal_nodes`. */
  method EqualNodes(a: seq<Node>, b: seq<Node>) returns (eq: bool)
    requires Sorted(a) && Sorted(b)
    ensures eq <==> Elems(a) == Elems(b)
  {
    var i := 0;
    while i < |a| && i < |b|
      invariant i <= |a| && i <= |b|
      invariant a[..i] == b[..i]
    {
      if a[i] != b[i] {
        if Elems(a) == Elems(b) { ListsAreCanonical(a, b); }
        return false;
      }
      i := i + 1;
    }
    eq := i == |a| && i == |b|;
    if Elems(a) == Elems(b) { ListsAreCanonical(a, b); }
    if eq { assert a == a[..i] && b == b[..i]; }
  }

  function FirstNodes(n: Node): seq<Node> {
    match n
    case End(_, _) => [n]
    case Epsilon(_) => []
    case CClass(_, _) => [n]
    case Cat(_, l, r) => if Nullable(l) then Merge(FirstNodes(l), FirstNodes(r)) else FirstNodes(l)
    case Or(_, l, r) => Merge(FirstNodes(l), FirstNodes(r))
    case Star(_, c) => FirstNodes(c)
    case Paren(_, c) => FirstNodes(c)
  }

  function LastNodes(n: Node): seq<Node> {
    match n
    case End(_, _) => [n]
    case Epsilon(_) => []
    case CClass(_, _) => [n]
    case Cat(_, l, r) => if Nullable(r) then Merge(LastNodes(l), LastNodes(r)) else LastNodes(r)
    case Or(_, l, r) => Merge(LastNodes(l), LastNodes(r))
    case Star(_, c) => LastNodes(c)
    case Paren(_, c) => LastNodes(c)
  }

  /** The lists the compiler computes stand for the first and last sets. */
  lemma {:induction false} FirstLastLists(n: Node, u: set<Node>)
    requires Leaves(n) <= u && UniqueIds(u)
    ensures ListOver(FirstNodes(n), u) && Elems(FirstNodes(n)) == First(n)
    ensures ListOver(LastNodes(n), u) && Elems(LastNodes(n)) == Last(n)
  {
    match n
    case End(_, _) =>
    case Epsilon(_) =>
    case CClass(_, _) =>
    case Cat(_, l, r) =>
      FirstLastLists(l, u); FirstLastLists(r, u);
      MergeIsUnion(FirstNodes(l), FirstNodes(r), u);
      MergeIsUnion(LastNodes(l), LastNodes(r), u);
    case Or(_, l, r) =>
      FirstLastLists(l, u); FirstLastLists(r, u);
      MergeIsUnion(FirstNodes(l), FirstNodes(r), u);
      MergeIsUnion(LastNodes(l), LastNodes(r), u);
    case Star(_, c) => FirstLastLists(c, u);
    case Paren(_, c) => FirstLastLists(c, u);
  }

  /** A missing `follow_nodes` field is the null list the source starts from. */
  function Lookup(follow: map<Node, seq<Node>>, p: Node): seq<Node> {
    if p in follow then follow[p] else []
  }

  /** The lists stand for the follow sets of `n`. */
  ghost predicate FollowLists(n: Node, follow: map<Node, seq<Node>>) {
    forall p {:trigger Lookup(follow, p)} ::
      ListOver(Lookup(follow, p), Leaves(n)) && Elems(Lookup(follow, p)) == Follow(n, p)
  }

  /** The `follow_nodes` fields of the leaves. */
  class FollowTable {
    var follow: map<Node, seq<Node>>

    ghost const universe: set<Node>

    ghost predicate Valid()
      reads this
    {
      UniqueIds(universe) && forall p | p in follow :: ListOver(follow[p], universe)
    }

    constructor (ghost u: set<Node>)
      requires UniqueIds(u)
      ensures Valid() && universe == u && follow == map[]
    {
      follow := map[];
      universe := u;
    }

    method Append(last: seq<Node>, first: seq<Node>)
      requires Valid() && Sorted(last) && ListOver(first, universe)
      modifies this
      ensures Valid()
      ensures forall p :: Elems(Lookup(follow, p)) == old(Elems(Lookup(follow, p))) + (if p in last then Elems(first) else {})
    {
      var i := 0;
      while i < |last|
        invariant i <= |last| && Valid()
        invariant forall p ::
          Elems(Lookup(follow, p)) == old(Elems(Lookup(follow, p))) + (if p in last[..i] then Elems(first) else {})
      {
        var p := last[i];
        assert p !in last[..i];
        MergeIsUnion(Lookup(follow, p), first, universe);
        var r := UnionNodes(Lookup(follow, p), first);
        follow := follow[p := r];
        i := i + 1;
        assert last[..i] == last[..i - 1] + [p];
      }
      assert last[..i] == last;
    }

    /** `re_compute`: adds the follow edges of `n` to the table. */
    method Compute(n: Node)
      requires Valid() && Leaves(n) <= universe
      modifies this
      ensures Valid()
      ensures forall p :: Elems(Lookup(follow, p)) == old(Elems(Lookup(follow, p))) + Follow(n, p)
      decreases n
    {
      match n
      case End(_, _) =>
      case Epsilon(_) =>
      case CClass(_, _) =>
      case Cat(_, l, r) =>
        Compute(l);
        Compute(r);
        FirstLastLists(l, universe);
        FirstLastLists(r, universe);
        Append(LastNodes(l), FirstNodes(r));
      case Or(_, l, r) =>
        Compute(l);
        Compute(r);
      case Star(_, c) =>
        Compute(c);
        FirstLastLists(n, universe);
        Append(LastNodes(n), FirstNodes(n));
      case Paren(_, c) =>
        Compute(c);
    }
  }
}
