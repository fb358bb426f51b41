/** The host table: rules filed by their last labels, found again by walking a host's labels from the end. */
module HostLookup {
  import opened HostNames
  import opened CharIndex
  import opened HostTable
  import opened Options

  datatype Kind = HostPartial | HostComplete | DomainComplete | DomainPartial

  /** `HostLeaf`: a rule. */
  datatype Leaf = Leaf(kind: Kind, name: string)

  function Reversed<T>(s: seq<T>): (r: seq<T>)
    ensures |r| == |s| && forall i: nat | i < |s| :: r[i] == s[|s| - 1 - i]
  {
    seq(|s|, i requires 0 <= i < |s| => s[|s| - 1 - i])
  }

  /** The labels of a name, the top-level domain first. */
  function Labels(name: string): (r: Path)
    ensures r != []
  {
    Reversed(Split(Lowered(name)))
  }

  /** Where a rule is filed. */
  function PathOf(name: string): (r: Path)
    ensures 0 < |r| <= HOST_TABLE_DEPTH && r <= Labels(name)
  {
    var ls := Labels(name);
    if |ls| <= HOST_TABLE_DEPTH then ls else ls[..HOST_TABLE_DEPTH]
  }

  lemma CleanLabels(name: string)
    requires WellFormed(Lowered(name))
    ensures forall i: nat | i < |Labels(name)| :: Clean(Labels(name)[i])
  {
    var s := Lowered(name);
    SplitLower(s);
    forall i: nat | i < |Labels(name)|
      ensures Clean(Labels(name)[i])
    {
      assert Labels(name)[i] == Split(s)[|Split(s)| - 1 - i];
    }
  }

  lemma {:induction false} SplitLower(s: string)
    requires Lower(s)
    ensures forall i: nat | i < |Split(s)| :: Lower(Split(s)[i])
  {
    if s != "" {
      assert Lower(s[1..]);
      SplitLower(s[1..]);
      var rest := Split(s[1..]);
      assert Lower([s[0]] + rest[0]);
    }
  }

  lemma TokensAreLabels(name: string)
    requires WellFormed(Lowered(name))
    ensures var ts := Tokens(Lowered(name)); |ts| == |Labels(name)| && forall i: nat | i < |ts| :: ts[|ts| - 1 - i] == Labels(name)[i]
  {
    NonemptyAll(Split(Lowered(name)));
  }

  lemma OneFurther(ls: Path, tokens: seq<string>, i: nat)
    requires |ls| == |tokens| && i < |ls| && forall k: nat | k < |ls| :: tokens[|tokens| - 1 - k] == ls[k]
    ensures tokens[|tokens| - i - 1] == ls[i] && ls[..i + 1] == ls[..i] + [ls[i]]
  {
    assert tokens[|tokens| - 1 - i] == ls[i];
  }

  lemma PathEnds(name: string, i: nat)
    requires i <= |Labels(name)| && i <= HOST_TABLE_DEPTH
    ensures i == HOST_TABLE_DEPTH || i == |Labels(name)| ==> Labels(name)[..i] == PathOf(name)
  {
  }

  /** The branches, by the labels that lead to them. */
  type Tree = map<Path, Branch>

  ghost function NodeAt(at: Tree, p: Path): Option<Branch> {
    if p in at then Some(at[p]) else None
  }

  ghost predicate Closed(at: Tree) {
    && [] in at
    && (forall p | p in at :: |p| <= HOST_TABLE_DEPTH && at[p].level == |p|)
    && (forall p | p in at && p != [] :: p[..|p| - 1] in at)
  }

  ghost predicate Apart(at: Tree) {
    forall p, q | p in at && q in at && at[p] == at[q] :: p == q
  }

  /** A branch at `p` with `n` below it: exactly the branches one label further. */
  ghost predicate Edges(at: Tree, p: Path, n: Level) {
    && !n.Indexed? && FlatSound(n) && (|p| == HOST_TABLE_DEPTH ==> n.Terminal?)
    && forall l: string | Clean(l) :: FlatBound(n, l) == NodeAt(at, p + [l])
  }

  lemma SameEdge(r: Path, m: string, p: Path, l: string)
    ensures r + [m] == p + [l] <==> r == p && m == l
  {
    assert (r + [m])[..|r|] == r && (r + [m])[|r|] == m;
    assert (p + [l])[..|p|] == p && (p + [l])[|p|] == l;
  }

  /** Growing the tree below `p` leaves the edges below other branches. */
  lemma OtherEdges(at: Tree, p: Path, l: string, b: Branch, r: Path, n: Level)
    requires Edges(at, r, n) && r != p
    ensures Edges(at[p + [l] := b], r, n)
  {
    hide FlatSound, FlatBound;
    forall m: string | Clean(m)
      ensures FlatBound(n, m) == NodeAt(at[p + [l] := b], r + [m])
    {
      SameEdge(r, m, p, l);
    }
  }

  lemma NewEdges(at: Tree, p: Path, l: string, b: Branch)
    requires Closed(at) && p + [l] !in at
    ensures Edges(at[p + [l] := b], p + [l], Terminal)
  {
    var q := p + [l];
    forall m: string | Clean(m)
      ensures NodeAt(at[q := b], q + [m]) == None
    {
      assert (q + [m])[..|q + [m]| - 1] == q;
      assert |q + [m]| > |q|;
    }
  }

  lemma ParentEdges(at: Tree, p: Path, l: string, b: Branch, n: Level, n': Level)
    requires Edges(at, p, n) && p + [l] !in at && |p| < HOST_TABLE_DEPTH
    requires !n'.Indexed? && FlatSound(n') && FlatBound(n', l) == Some(b)
    requires forall m: string | Clean(m) && m != l :: FlatBound(n', m) == FlatBound(n, m)
    ensures Edges(at[p + [l] := b], p, n')
  {
    hide FlatSound, FlatBound;
    forall m: string | Clean(m)
      ensures FlatBound(n', m) == NodeAt(at[p + [l] := b], p + [m])
    {
      SameEdge(p, m, p, l);
    }
  }

  lemma NothingBelow(l: string)
    ensures FlatBound(Terminal, l) == None
  {
  }

  lemma GrownTree(at: Tree, p: Path, l: string, b: Branch)
    requires Closed(at) && Apart(at) && p in at && |p| < HOST_TABLE_DEPTH && p + [l] !in at
    requires b.level == |p| + 1 && forall q | q in at :: at[q] != b
    ensures Closed(at[p + [l] := b]) && Apart(at[p + [l] := b])
  {
    assert (p + [l])[..|p + [l]| - 1] == p;
  }

  ghost predicate Increasing(s: seq<nat>) {
    forall i: nat, j: nat | i < j < |s| :: s[i] < s[j]
  }

  /** The leaves at `p` are the rules filed there, in the order of their entry. */
  ghost predicate FiledAt(leafArray: seq<Leaf>, p: Path, leaves: seq<nat>) {
    && Increasing(leaves)
    && forall i: nat :: i in leaves <==> i < |leafArray| && PathOf(leafArray[i].name) == p
  }

  predicate IsPartial(kind: Kind) {
    kind.HostPartial? || kind.DomainPartial?
  }

  predicate IsDomain(kind: Kind) {
    kind.DomainComplete? || kind.DomainPartial?
  }

  ghost predicate Proper(leaf: Leaf) {
    WellFormed(Lowered(leaf.name)) && (IsPartial(leaf.kind) <==> |Labels(leaf.name)| > HOST_TABLE_DEPTH)
  }

  /** Every rule has its place. */
  ghost predicate Placed(leafArray: seq<Leaf>, at: Tree) {
    forall i: nat | i < |leafArray| :: Proper(leafArray[i]) && PathOf(leafArray[i].name) in at
  }

  lemma FiledAppend(leafArray: seq<Leaf>, leaf: Leaf, p: Path, leaves: seq<nat>)
    requires FiledAt(leafArray, p, leaves)
    ensures PathOf(leaf.name) != p ==> FiledAt(leafArray + [leaf], p, leaves)
    ensures PathOf(leaf.name) == p ==> FiledAt(leafArray + [leaf], p, leaves + [|leafArray|])
  {
    var more, n := leafArray + [leaf], |leafArray|;
    hide PathOf;
    forall i: nat
      ensures i < |more| && PathOf(more[i].name) == p <==> i in leaves || (i == n && PathOf(leaf.name) == p)
    {
    }
    forall i: nat | i < |leaves|
      ensures leaves[i] < n
    {
      assert leaves[i] in leaves;
    }
  }

  lemma NoneFiled(leafArray: seq<Leaf>, at: Tree, p: Path)
    requires Placed(leafArray, at) && p !in at
    ensures FiledAt(leafArray, p, [])
  {
  }

  class Table {
    const root: Branch
    /** `leaf_array` up to `num_el`. */
    var leafArray: seq<Leaf>
    ghost var at: Tree

    constructor ()
      ensures Valid() && leafArray == []
    {
      root := new Branch(0);
      leafArray := [];
      at := map[[] := root];
    }

    ghost function Branches(): set<Branch>
      reads this`at
    {
      set p | p in at :: at[p]
    }

    /** The same of the root, which is indexed by characters. */
    ghost predicate RootEdges()
      reads this`at, root`next
      reads Indexes(root.next)`nodes, Indexes(root.next)`illegal
      reads Elements(root.next)`branches, Elements(root.next)`next
    {
      && (root.next.Indexed? || root.next.Terminal?) && Sound(root.next)
      && forall l: string | Clean(l) :: HostTable.Bound(root.next, l) == NodeAt(at, [l])
    }

    ghost predicate FlatEdges()
      reads this`at, Branches()`next
    {
      forall p | p in at && p != [] :: Edges(at, p, at[p].next)
    }

    /** The branches form a tree whose edges the containers hold. */
    ghost predicate Grown()
      reads this`at, Branches()`next, root`next
      reads Indexes(root.next)`nodes, Indexes(root.next)`illegal
      reads Elements(root.next)`branches, Elements(root.next)`next
    {
      Closed(at) && Apart(at) && at[[]] == root && RootEdges() && FlatEdges()
    }

    /** The walk down finds the branch one label further. */
    lemma Below(p: Path, l: string)
      requires Grown() && p in at && Clean(l)
      ensures |p| <= HOST_TABLE_DEPTH && at[p].level == |p|
      ensures Sound(at[p].next) && (|p| == HOST_TABLE_DEPTH ==> at[p].next.Terminal?)
      ensures HostTable.Bound(at[p].next, l) == NodeAt(at, p + [l])
      ensures at[p].next.Terminal? ==> p + [l] !in at
    {
      NothingBelow(l);
      assert p != [] ==> Edges(at, p, at[p].next);
      assert [] + [l] == [l];
    }

    /** The root's index is the one it was, or new, and so are its elements. */
    twostate predicate NewBelowRoot()
      reads root`next, Indexes(root.next)`nodes
    {
      && fresh(Indexes(root.next) - old(Indexes(root.next)))
      && fresh(Elements(root.next) - old(Elements(root.next)))
    }

    /** A new branch goes into the index below the root. */
    method AttachRoot(l: string) returns (next: Branch)
      requires RootEdges() && root.level == 0 && Clean(l) && NodeAt(at, [l]) == None
      modifies root`next, Indexes(root.next)`illegal, Indexes(root.next)`nodes
      modifies Elements(root.next)`branches, Elements(root.next)`next
      ensures root.next.Indexed? && Sound(root.next) && NewBelowRoot()
      ensures fresh(next) && next.level == 1 && next.next == Terminal && next.leaves == []
      ensures forall m: string | Clean(m) ::
                HostTable.Bound(root.next, m) == if m == l then Some(next) else NodeAt(at, [m])
    {
      hide FlatSound, FlatBound, Index.Valid, Index.Find;
      forall m: string | Clean(m)
        ensures root.next.Terminal? ==> NodeAt(at, [m]) == None
        ensures HostTable.Bound(root.next, m) == NodeAt(at, [m])
      {
        NothingBelow(m);
      }
      if root.next.Terminal? {
        next := NewLevel(root, l);
      } else {
        next := InsertBranch(root, l);
      }
    }

    method HangRoot(l: string) returns (next: Branch)
      requires Grown() && Clean(l) && [l] !in at
      modifies root`next, this`at, Indexes(root.next)`illegal, Indexes(root.next)`nodes
      modifies Elements(root.next)`branches, Elements(root.next)`next
      ensures Grown() && at == old(at)[[l] := next] && fresh(next) && next.leaves == []
      ensures NewBelowRoot()
    {
      hide Closed, Apart, Edges, Sound, HostTable.Bound;
      assert [] + [l] == [l];
      RootApart();
      next := AttachRoot(l);
      GrownTree(at, [], l, next);
      NewEdges(at, [], l, next);
      forall r | r in at && r != []
        ensures Edges(at[[l] := next], r, at[r].next)
      {
        OtherEdges(at, [], l, next, r, at[r].next);
      }
      forall m: string | Clean(m)
        ensures HostTable.Bound(root.next, m) == NodeAt(at[[l] := next], [m])
      {
        assert [m] == [l] ==> [m][0] == [l][0];
      }
      at := at[[l] := next];
    }

    lemma RootApart()
      requires Grown()
      ensures [] in at && root.level == 0
      ensures forall r | r in at && r != [] :: at[r] != root
    {
    }

    /** A new branch goes into the container below a branch other than the root. */
    method AttachBelow(cur: Branch, l: string) returns (next: Branch)
      requires RootEdges() && cur != root && !cur.next.Indexed? && cur.level > 0
      requires FlatSound(cur.next) && Clean(l) && FlatBound(cur.next, l) == None
      modifies cur`next
      ensures RootEdges() && NewBelowRoot()
      ensures fresh(next) && next.level == cur.level + 1 && next.next == Terminal && next.leaves == []
      ensures !cur.next.Indexed? && FlatSound(cur.next) && FlatBound(cur.next, l) == Some(next)
      ensures forall m: string | Clean(m) && m != l :: FlatBound(cur.next, m) == old(FlatBound(cur.next, m))
    {
      hide FlatSound, FlatBound;
      ghost var was := cur.next;
      assert Indexes(was) == {} && Elements(was) == {};
      if cur.next.Terminal? {
        forall m: string {
          NothingBelow(m);
        }
        next := NewLevel(cur, l);
      } else {
        next := InsertBranch(cur, l);
      }
    }

    method HangBelow(cur: Branch, ghost p: Path, l: string) returns (next: Branch)
      requires Grown() && p in at && p != [] && cur == at[p] && |p| < HOST_TABLE_DEPTH && Clean(l) && p + [l] !in at
      modifies cur`next, this`at
      ensures Grown() && at == old(at)[p + [l] := next] && fresh(next) && next.leaves == []
      ensures NewBelowRoot()
    {
      hide FlatSound, FlatBound, Index.Valid, Index.Find, Closed, Apart, Edges;
      PlaceApart(p, l);
      ghost var was := cur.next;
      next := AttachBelow(cur, l);
      ParentEdges(at, p, l, next, was, cur.next);
      GrownTree(at, p, l, next);
      NewEdges(at, p, l, next);
      forall r | r in at && r != [] && r != p
        ensures Edges(at[p + [l] := next], r, at[r].next)
      {
        OtherEdges(at, p, l, next, r, at[r].next);
      }
      at := at[p + [l] := next];
    }

    lemma PlaceApart(p: Path, l: string)
      requires Grown() && p in at && p != [] && Clean(l)
      ensures [] in at && at[p].level == |p| && at[p] != root
      ensures forall r | r in at && r != p :: at[r] != at[p]
      ensures Edges(at, p, at[p].next) && !at[p].next.Indexed?
      ensures FlatSound(at[p].next) && FlatBound(at[p].next, l) == NodeAt(at, p + [l])
    {
    }

    /** A new branch one label below `p`. */
    method Hang(cur: Branch, ghost p: Path, l: string) returns (next: Branch)
      requires Grown() && p in at && cur == at[p] && |p| < HOST_TABLE_DEPTH && Clean(l) && p + [l] !in at
      modifies this`at, cur`next, Indexes(root.next)`illegal, Indexes(root.next)`nodes
      modifies Elements(root.next)`branches, Elements(root.next)`next
      ensures Grown() && NewBelowRoot()
      ensures at == old(at)[p + [l] := next] && fresh(next) && next.leaves == []
    {
      Level(p);
      hide Grown;
      if cur.level == 0 {
        assert p + [l] == [l];
        next := HangRoot(l);
      } else {
        next := HangBelow(cur, p, l);
      }
    }

    lemma Level(p: Path)
      requires Grown() && p in at
      ensures at[p].level == |p| && (p == [] <==> at[p] == root)
    {
    }

    /** The branch one label down, if there is one. */
    method Seek(cur: Branch, ghost p: Path, l: string, notProcess: bool) returns (r: Option<Branch>)
      requires Grown() && p in at && cur == at[p] && Clean(l)
      ensures Grown() && r == NodeAt(at, p + [l])
    {
      hide FlatSound, FlatBound, Closed, Apart, Edges;
      Below(p, l);
      r := FindNextLevel(cur, l, notProcess);
    }

    /** One label down, on a new branch if need be. */
    method StepDown(cur: Branch, ghost p: Path, l: string) returns (next: Branch)
      requires Grown() && p in at && cur == at[p] && |p| < HOST_TABLE_DEPTH && Clean(l)
      modifies this`at, cur`next, Indexes(root.next)`illegal, Indexes(root.next)`nodes
      modifies Elements(root.next)`branches, Elements(root.next)`next
      ensures Grown() && NewBelowRoot() && p + [l] in at && next == at[p + [l]]
      ensures if p + [l] in old(at) then at == old(at)
              else at == old(at)[p + [l] := next] && fresh(next) && next.leaves == []
    {
      hide Grown;
      Below(p, l);
      if cur.next.Terminal? {
        next := Hang(cur, p, l);
      } else {
        var r := Seek(cur, p, l, false);
        if r.Some? {
          next := r.value;
        } else {
          next := Hang(cur, p, l);
        }
      }
    }

    /** Everything the table is made of. */
    ghost function Repr(): set<object>
      reads this`at, root`next, Indexes(root.next)`nodes
    {
      Branches() + Indexes(root.next) + Elements(root.next) + {root}
    }

    ghost predicate Filed()
      reads this`at, this`leafArray, Branches()`leaves
    {
      && Placed(leafArray, at)
      && forall p | p in at :: FiledAt(leafArray, p, at[p].leaves)
    }

    ghost predicate Valid()
      reads this`at, this`leafArray, Branches()`next, Branches()`leaves, root`next
      reads Indexes(root.next)`nodes, Indexes(root.next)`illegal
      reads Elements(root.next)`branches, Elements(root.next)`next
    {
      Grown() && Filed()
    }

    /** A step down keeps every rule where it is. */
    method StepFiled(cur: Branch, ghost p: Path, l: string) returns (next: Branch)
      requires Grown() && Filed() && p in at && cur == at[p] && |p| < HOST_TABLE_DEPTH && Clean(l)
      modifies this`at, cur`next, Indexes(root.next)`illegal, Indexes(root.next)`nodes
      modifies Elements(root.next)`branches, Elements(root.next)`next
      ensures Grown() && Filed() && fresh(Repr() - old(Repr()))
      ensures p + [l] in at && next == at[p + [l]] && next.level == |p| + 1
    {
      hide Grown, FiledAt, Proper, PathOf;
      next := StepDown(cur, p, l);
      Level(p + [l]);
      if p + [l] !in old(at) {
        NoneFiled(leafArray, old(at), p + [l]);
      }
    }

    lemma RootPlace()
      requires Grown()
      ensures [] in at && at[[]] == root && root.level == 0
    {
    }

    /** The walk of `TableInsert` along the tokens, last first, down to where the rule belongs. */
    method Descend(tokens: seq<string>, ghost ls: Path) returns (cur: Branch, ghost depth: nat)
      requires Grown() && Filed() && |ls| == |tokens|
      requires forall k: nat | k < |ls| :: tokens[|tokens| - 1 - k] == ls[k] && Clean(ls[k])
      modifies this`at, Repr()
      ensures Grown() && Filed() && fresh(Repr() - old(Repr()))
      ensures depth == (if |ls| < HOST_TABLE_DEPTH then |ls| else HOST_TABLE_DEPTH)
      ensures ls[..depth] in at && cur == at[ls[..depth]]
    {
      hide Grown, Filed, Clean;
      RootPlace();
      cur := root;
      var i := 0;
      assert ls[..0] == [];
      while i < HOST_TABLE_DEPTH && |tokens| != cur.level
        invariant i <= HOST_TABLE_DEPTH && i <= |ls|
        invariant Grown() && Filed() && fresh(Repr() - old(Repr()))
        invariant ls[..i] in at && cur == at[ls[..i]] && cur.level == i
      {
        OneFurther(ls, tokens, i);
        cur := StepFiled(cur, ls[..i], tokens[|tokens| - i - 1]);
        i := i + 1;
      }
      depth := i;
    }

    method TokensOf(name: string) returns (tokens: seq<string>)
      requires Grown() && Filed()
      ensures Grown() && Filed() && tokens == Tokens(Lowered(name))
    {
      hide FlatSound, FlatBound, Closed, Apart, Edges, Placed, FiledAt;
      tokens := Tokenize(Lowered(name));
    }

    method PutLeaf(cur: Branch, leaf: Leaf)
      requires Grown()
      modifies this`leafArray, cur`leaves
      ensures Grown() && leafArray == old(leafArray) + [leaf] && cur.leaves == old(cur.leaves) + [|old(leafArray)|]
    {
      hide Closed, Apart, RootEdges, FlatEdges, Branches;
      cur.leaves := cur.leaves + [|leafArray|];
      leafArray := leafArray + [leaf];
    }

    lemma PlacesApart()
      requires Grown()
      ensures Apart(at)
    {
    }

    method AddLeaf(cur: Branch, leaf: Leaf)
      requires Grown() && Filed() && Proper(leaf) && PathOf(leaf.name) in at && cur == at[PathOf(leaf.name)]
      modifies this`leafArray, cur`leaves
      ensures Grown() && Filed() && leafArray == old(leafArray) + [leaf]
    {
      hide Grown, FiledAt, PathOf, Proper;
      PlacesApart();
      ghost var more := leafArray + [leaf];
      forall p | p in at
        ensures FiledAt(more, p, if p == PathOf(leaf.name) then at[p].leaves + [|leafArray|] else at[p].leaves)
      {
        FiledAppend(leafArray, leaf, p, at[p].leaves);
      }
      PutLeaf(cur, leaf);
    }

    /** `NewEntry` with its `TableInsert`: one more rule. */
    method NewEntry(name: string, domain: bool)
      requires Valid() && WellFormed(Lowered(name))
      modifies this`at, this`leafArray, Repr()
      ensures Valid()
      ensures |leafArray| == |old(leafArray)| + 1 && leafArray[..|old(leafArray)|] == old(leafArray)
      ensures leafArray[|old(leafArray)|].name == name && IsDomain(leafArray[|old(leafArray)|].kind) == domain
    {
      hide WellFormed, Labels, PathOf, Grown, Filed, Tokens;
      var tokens := TokensOf(name);
      TokensAreLabels(name);
      var partial := |tokens| > HOST_TABLE_DEPTH;
      var kind := if domain then (if partial then DomainPartial else DomainComplete)
                  else (if partial then HostPartial else HostComplete);
      CleanLabels(name);
      var cur: Branch;
      ghost var depth;
      cur, depth := Descend(tokens, Labels(name));
      PathEnds(name, depth);
      AddLeaf(cur, Leaf(kind, name));
    }
  }
}
