/** What the leaf set reached by a string says about the patterns that match it or can still match. */
module PatternVerdict {
  import opened RegexTree
  import opened Glushkov
  import opened PositionAutomaton
  import opened NodeLists
  import opened SubsetConstruction

  /** The list position of the first end marker. */
  lemma {:induction false} FirstMarker(nodes: seq<Node>) returns (i: nat)
    ensures i <= |nodes| && forall k: nat | k < i :: !nodes[k].End?
    ensures i < |nodes| ==> nodes[i].End? && AcceptNum(nodes) == nodes[i].accept
    ensures i == |nodes| ==> AcceptNum(nodes) == -1
  {
    if nodes == [] || nodes[0].End? {
      i := 0;
    } else {
      i := FirstMarker(nodes[1..]);
      i := i + 1;
    }
  }

  /** The first pattern that matches. */
  lemma {:induction false} FirstRule(rs: seq<Node>, s: seq<Byte>) returns (i: nat)
    requires forall r | r in rs :: Rule(r)
    ensures i <= |rs| && forall k: nat | k < i :: !Matches(rs[k], s)
    ensures i < |rs| ==> Matches(rs[i], s) && Verdict(rs, s) == Marker(rs[i]).accept
    ensures i == |rs| ==> Verdict(rs, s) == -1
  {
    if rs == [] || Matches(rs[0], s) {
      i := 0;
    } else {
      i := FirstRule(rs[1..], s);
      i := i + 1;
    }
  }

  /** Of several markers in a list the one of the earliest pattern is found first. */
  lemma EarliestMarker(nodes: seq<Node>, ms: seq<Node>, j: nat)
    requires Sorted(nodes) && Sorted(ms) && (forall m | m in ms :: m.End?)
    requires forall p | p in nodes && p.End? :: p in ms
    requires j <= |ms| && (forall k: nat | k < j :: ms[k] !in nodes) && (j < |ms| ==> ms[j] in nodes)
    ensures AcceptNum(nodes) == if j < |ms| then ms[j].accept else -1
  {
    var i := FirstMarker(nodes);
    if i < |nodes| {
      assert nodes[i] in ms;
      var m: nat :| m < |ms| && ms[m] == nodes[i];
      assert j <= m;
    }
    if j < |ms| {
      var k: nat :| k < |nodes| && nodes[k] == ms[j];
      assert i <= k;
    }
  }

  ghost function Markers(rs: seq<Node>): (ms: seq<Node>)
    requires forall r | r in rs :: Rule(r)
    ensures |ms| == |rs| && forall i: nat | i < |rs| :: ms[i] == Marker(rs[i])
    ensures forall m | m in ms :: m.End?
  {
    seq(|rs|, i requires 0 <= i < |rs| => Marker(rs[i]))
  }

  /** The markers in the list of a state are those of the patterns that match. */
  lemma MarkersReached(n: Node, s: seq<Byte>, nodes: seq<Node>, ms: seq<Node>)
    requires Program(n) && Unshared(n) && ms == Markers(Rules(n)) && Elems(nodes) == Reach(n, s)
    ensures forall k: nat | k < |ms| :: ms[k] in nodes <==> Matches(Rules(n)[k], s)
    ensures forall p | p in nodes && p.End? :: p in ms
  {
    forall k: nat | k < |ms| ensures ms[k] in nodes <==> Matches(Rules(n)[k], s) {
      ProgramReach(n, s, k);
      assert ms[k] in Elems(nodes) <==> ms[k] in nodes;
    }
    forall p | p in nodes && p.End? ensures p in ms {
      ReachInLeaves(n, s);
      assert p in Elems(nodes);
      var m := MarkersAreEnds(n, p);
      assert ms[m] == p;
    }
  }

  /** The accept number of a state is the number of the first pattern that matches the string leading to it. */
  lemma AcceptIsVerdict(n: Node, s: seq<Byte>, nodes: seq<Node>)
    requires Program(n) && Unshared(n) && Ordered(Rules(n))
    requires Sorted(nodes) && Elems(nodes) == Reach(n, s)
    ensures AcceptNum(nodes) == Verdict(Rules(n), s)
  {
    var ms := Markers(Rules(n));
    var j := FirstRule(Rules(n), s);
    MarkersReached(n, s, nodes, ms);
    EarliestMarker(nodes, ms, j);
  }

  lemma {:induction false} ReachExtend(n: Node, s: seq<Byte>, t: seq<Byte>)
    requires Reach(n, s) == {}
    ensures Reach(n, s + t) == {}
    decreases |t|
  {
    if t == [] {
      assert s + t == s;
    } else {
      var k := |t| - 1;
      ReachExtend(n, s, t[..k]);
      assert (s + t)[..|s + t| - 1] == s + t[..k];
    }
  }

  /** A pattern can still match some continuation of `s`. */
  ghost predicate Viable(n: Node, s: seq<Byte>)
    requires Program(n)
  {
    exists i: nat, t: seq<Byte> | i < |Rules(n)| :: Matches(Rules(n)[i], s + t)
  }

  /** When no state is left, no pattern matches any continuation. */
  lemma DeadIsFinal(n: Node, s: seq<Byte>)
    requires Program(n) && Unshared(n) && Reach(n, s) == {}
    ensures !Viable(n, s) && Verdict(Rules(n), s) == -1
  {
    forall i: nat, t: seq<Byte> | i < |Rules(n)| ensures !Matches(Rules(n)[i], s + t) {
      ReachExtend(n, s, t);
      ProgramReach(n, s + t, i);
    }
    forall i: nat | i < |Rules(n)| ensures !Matches(Rules(n)[i], s) {
      assert s + [] == s;
    }
    var j := FirstRule(Rules(n), s);
  }

  /** No character class is empty. */
  ghost predicate ClassesInhabited(n: Node) {
    forall p | p in Leaves(n) && p.CClass? :: Inhabited(p)
  }

  ghost predicate Inhabited(p: Node) {
    exists c: Byte :: Reads(p, c)
  }

  /** A walk that starts at `p` and stays on the leaves of `n`. */
  ghost predicate WalkFrom(n: Node, p: Node, ps: seq<Node>) {
    |ps| > 0 && ps[0] == p && Chain(n, ps) && forall q | q in ps :: q in Leaves(n) && q.CClass?
  }

  lemma WalkMono(m: Node, n: Node, p: Node, ps: seq<Node>)
    requires WalkFrom(m, p, ps) && Leaves(m) <= Leaves(n)
    requires forall q :: Follow(m, q) <= Follow(n, q)
    ensures WalkFrom(n, p, ps)
  {
    ChainMono(m, n, ps);
  }

  /** From every leaf of a body some walk leads to the end of the body. */
  lemma {:induction false} WalkToLast(n: Node, p: Node) returns (ps: seq<Node>)
    requires Body(n) && p in Leaves(n)
    ensures WalkFrom(n, p, ps) && ps[|ps| - 1] in Last(n)
  {
    match n
    case CClass(_, _) => ps := [p];
    case Cat(_, l, r) =>
      if p in Leaves(l) {
        ps := WalkToLast(l, p);
        WalkMono(l, n, p, ps);
        if !Nullable(r) {
          FirstOfNonNullable(r);
          InLeaves(r);
          var q :| q in First(r);
          var qs := WalkToLast(r, q);
          WalkMono(r, n, q, qs);
          JoinChains(n, ps, qs);
          ps := ps + qs;
        }
      } else {
        ps := WalkToLast(r, p);
        WalkMono(r, n, p, ps);
      }
    case Or(_, l, r) =>
      if p in Leaves(l) {
        ps := WalkToLast(l, p);
        WalkMono(l, n, p, ps);
      } else {
        ps := WalkToLast(r, p);
        WalkMono(r, n, p, ps);
      }
    case Star(_, c) => ps := WalkToLast(c, p); WalkMono(c, n, p, ps);
    case Paren(_, c) => ps := WalkToLast(c, p); WalkMono(c, n, p, ps);
  }

  /** From every leaf of a program some walk leads to an end marker. */
  lemma {:induction false} WalkToMarker(n: Node, p: Node) returns (ps: seq<Node>, e: Node)
    requires Program(n) && p in Leaves(n) && p.CClass?
    ensures WalkFrom(n, p, ps)
    ensures e.End? && e in Leaves(n) && e in Follow(n, ps[|ps| - 1])
  {
    if Rule(n) {
      ps := WalkToLast(n.left, p);
      WalkMono(n.left, n, p, ps);
      e := n.right;
    } else if p in Leaves(n.left) {
      ps, e := WalkToMarker(n.left, p);
      WalkMono(n.left, n, p, ps);
    } else {
      ps, e := WalkToMarker(n.right, p);
      WalkMono(n.right, n, p, ps);
    }
  }

  lemma {:induction false} SpellWalk(ps: seq<Node>) returns (t: seq<Byte>)
    requires forall q | q in ps :: Inhabited(q)
    ensures Spells(ps, t)
  {
    if ps == [] {
      t := [];
    } else {
      t := SpellWalk(ps[1..]);
      assert ps[0] in ps;
      var c: Byte :| Reads(ps[0], c);
      t := [c] + t;
    }
  }

  lemma {:induction false} ReachAlong(n: Node, s: seq<Byte>, ps: seq<Node>, t: seq<Byte>, e: Node)
    requires |ps| > 0 && ps[0] in Reach(n, s) && Chain(n, ps) && Spells(ps, t) && e in Follow(n, ps[|ps| - 1])
    ensures e in Reach(n, s + t)
    decreases |ps|
  {
    var k := |ps| - 1;
    assert (s + t)[..|s + t| - 1] == s + t[..k] && (s + t)[|s + t| - 1] == t[k];
    if k == 0 {
      assert s + t[..k] == s;
    } else {
      assert ps[k - 1 + 1] in Follow(n, ps[k - 1]);
      ReachAlong(n, s, ps[..k], t[..k], ps[k]);
    }
  }

  /** With no empty class, a state is left exactly while some pattern can still match. */
  lemma LiveIsViable(n: Node, s: seq<Byte>)
    requires Program(n) && Unshared(n) && ClassesInhabited(n)
    ensures Reach(n, s) != {} <==> Viable(n, s)
  {
    if Reach(n, s) == {} {
      DeadIsFinal(n, s);
    } else {
      var q :| q in Reach(n, s);
      ReachInLeaves(n, s);
      var e, t := q, [];
      assert s + t == s;
      if !q.End? {
        LeavesAreLeaves(n, q);
        var ps;
        ps, e := WalkToMarker(n, q);
        t := SpellWalk(ps);
        ReachAlong(n, s, ps, t, e);
      }
      var i := MarkersAreEnds(n, e);
      ProgramReach(n, s + t, i);
    }
  }

  lemma {:induction false} LeavesAreLeaves(n: Node, p: Node)
    requires p in Leaves(n)
    ensures p.End? || p.CClass?
  {
    match n
    case End(_, _) =>
    case CClass(_, _) =>
    case Cat(_, l, r) => if p in Leaves(l) { LeavesAreLeaves(l, p); } else { LeavesAreLeaves(r, p); }
    case Or(_, l, r) => if p in Leaves(l) { LeavesAreLeaves(l, p); } else { LeavesAreLeaves(r, p); }
    case Star(_, c) => LeavesAreLeaves(c, p);
    case Paren(_, c) => LeavesAreLeaves(c, p);
  }
}
