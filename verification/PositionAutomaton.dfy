/** The automaton over sets of leaves, and the pattern number it reports. */
module PositionAutomaton {
  import opened RegexTree
  import opened Glushkov

  /** The leaves that may come next after one of `from` has read `c`. */
  function Step(n: Node, from: set<Node>, c: Byte): set<Node> {
    set p, q | p in from && Reads(p, c) && q in Follow(n, p) :: q
  }

  /** The leaves that may come next after all of `s` was read. */
  function Reach(n: Node, s: seq<Byte>): set<Node> {
    if s == [] then First(n) else Step(n, Reach(n, s[..|s| - 1]), s[|s| - 1])
  }

  /** One pattern as the parser returns it: a body closed by its end marker, or the marker alone. */
  predicate Rule(n: Node) {
    n.End? || (n.Cat? && Body(n.left) && n.right.End?)
  }

  function Marker(n: Node): (e: Node)
    requires Rule(n)
    ensures e.End?
  {
    if n.End? then n else n.right
  }

  predicate Program(n: Node) {
    Rule(n) || (n.Or? && Program(n.left) && Program(n.right))
  }

  /** The patterns of a program in the order they were given. */
  function Rules(n: Node): (rs: seq<Node>)
    requires Program(n)
    ensures |rs| > 0 && forall r | r in rs :: Rule(r)
  {
    if Rule(n) then [n] else Rules(n.left) + Rules(n.right)
  }

  /** Markers are numbered upwards in pattern order, as the parser allocates them. */
  ghost predicate Ordered(rs: seq<Node>)
    requires forall r | r in rs :: Rule(r)
  {
    forall i: nat, j: nat | i < j < |rs| :: Marker(rs[i]).id < Marker(rs[j]).id
  }

  /** Accept numbers are counts: -1 is free to mean that no pattern matched. */
  ghost predicate Numbered(rs: seq<Node>)
    requires forall r | r in rs :: Rule(r)
  {
    forall r | r in rs :: Marker(r).accept >= 0
  }

  /** The accept number of the first pattern whose language holds `s`; -1 if there is none. */
  ghost function Verdict(rs: seq<Node>, s: seq<Byte>): int
    requires forall r | r in rs :: Rule(r)
  {
    if rs == [] then -1 else if Matches(rs[0], s) then Marker(rs[0]).accept else Verdict(rs[1..], s)
  }

  lemma {:induction false} ReachInLeaves(n: Node, s: seq<Byte>)
    ensures Reach(n, s) <= Leaves(n)
  {
    InLeaves(n);
    forall p ensures Follow(n, p) <= Leaves(n) { FollowInLeaves(n, p); }
  }

  /** A reached leaf is witnessed by a walk, and each walk reaches what follows its end. */
  lemma {:induction false} ReachWalk(n: Node, s: seq<Byte>, q: Node) returns (ps: seq<Node>)
    requires s != [] && q in Reach(n, s)
    ensures Spells(ps, s) && |ps| > 0 && ps[0] in First(n) && Chain(n, ps) && q in Follow(n, ps[|ps| - 1])
    decreases |s|
  {
    var k := |s| - 1;
    var p :| p in Reach(n, s[..k]) && Reads(p, s[k]) && q in Follow(n, p);
    if k == 0 {
      ps := [p];
    } else {
      ps := ReachWalk(n, s[..k], p);
      JoinChains(n, ps, [p]);
      ps := ps + [p];
    }
  }

  lemma {:induction false} WalkReach(n: Node, s: seq<Byte>, ps: seq<Node>, q: Node)
    requires Spells(ps, s) && |ps| > 0 && ps[0] in First(n) && Chain(n, ps) && q in Follow(n, ps[|ps| - 1])
    ensures q in Reach(n, s)
    decreases |s|
  {
    var k := |s| - 1;
    if k > 0 {
      assert ps[k - 1 + 1] in Follow(n, ps[k - 1]);
      WalkReach(n, s[..k], ps[..k], ps[k]);
    } else {
      assert s[..k] == [];
    }
  }

  lemma {:induction false} BodyLeaves(n: Node)
    requires Body(n)
    ensures forall p | p in Leaves(n) :: p.CClass?
  {
    match n
    case Epsilon(_) =>
    case CClass(_, _) =>
    case Cat(_, l, r) => BodyLeaves(l); BodyLeaves(r);
    case Or(_, l, r) => BodyLeaves(l); BodyLeaves(r);
    case Star(_, c) => BodyLeaves(c);
    case Paren(_, c) => BodyLeaves(c);
  }

  /** A pattern closed by its marker denotes what its body denotes. */
  lemma RuleLanguage(n: Node, s: seq<Byte>)
    requires Rule(n) && n.Cat?
    ensures Matches(n, s) <==> Matches(n.left, s)
  {
    assert s[..|s|] == s && s[|s|..] == [];
    if Matches(n, s) {
      var k: nat :| k <= |s| && Matches(n.left, s[..k]) && Matches(n.right, s[k..]);
      assert s[k..] == [] && k == |s|;
    } else {
      assert Matches(n.right, s[|s|..]);
    }
  }

  /** The marker of a pattern is reached exactly by the strings of the pattern. */
  lemma RuleReach(n: Node, s: seq<Byte>)
    requires Rule(n) && Unshared(n)
    ensures Marker(n) in Reach(n, s) <==> Matches(n, s)
  {
    if n.End? {
      if s != [] && n in Reach(n, s) { var ps := ReachWalk(n, s, n); }
    } else {
      RuleLanguage(n, s);
      BodyLeaves(n.left);
      InLeaves(n.left);
      NullableMatchesEmpty(n.left);
      if s != [] {
        if Marker(n) in Reach(n, s) {
          ReachSound(n, s);
        }
        if Matches(n.left, s) {
          var ps := Complete(n.left, s);
          ChainMono(n.left, n, ps);
          WalkReach(n, s, ps, Marker(n));
        }
      }
    }
  }

  lemma ReachSound(n: Node, s: seq<Byte>)
    requires Rule(n) && n.Cat? && Unshared(n) && s != [] && Marker(n) in Reach(n, s)
    ensures Matches(n.left, s)
  {
    BodyLeaves(n.left);
    InLeaves(n.left);
    var ps := ReachWalk(n, s, Marker(n));
    var k := CatSplit(n, ps);
    assert forall i: nat | i < |ps| :: ps[i].CClass?;
    assert k == |ps|;
    forall i: nat | i + 1 < |ps| ensures ps[i + 1] in Follow(n.left, ps[i]) {
      CatEdge(n, ps[i], ps[i + 1]);
    }
    CatEdge(n, ps[k - 1], Marker(n));
    Sound(n.left, ps, s);
  }

  /** Alternatives advance independently of one another. */
  lemma {:induction false} OrReach(n: Node, s: seq<Byte>)
    requires n.Or? && Unshared(n)
    ensures Reach(n, s) == Reach(n.left, s) + Reach(n.right, s)
    decreases |s|
  {
    if s != [] {
      var k := |s| - 1;
      OrReach(n, s[..k]);
      ReachInLeaves(n.left, s[..k]);
      ReachInLeaves(n.right, s[..k]);
      forall p ensures p in Leaves(n.left) ==> Follow(n, p) == Follow(n.left, p)
               ensures p in Leaves(n.right) ==> Follow(n, p) == Follow(n.right, p) {
        FollowInLeaves(n.left, p);
        FollowInLeaves(n.right, p);
      }
    }
  }

  /** In a program of many patterns each marker is reached exactly by the strings of its pattern. */
  lemma {:induction false} ProgramReach(n: Node, s: seq<Byte>, i: nat)
    requires Program(n) && Unshared(n) && i < |Rules(n)|
    ensures Marker(Rules(n)[i]) in Reach(n, s) <==> Matches(Rules(n)[i], s)
    ensures Marker(Rules(n)[i]) in Leaves(n)
  {
    if Rule(n) {
      RuleReach(n, s);
    } else {
      OrReach(n, s);
      ReachInLeaves(n.left, s);
      ReachInLeaves(n.right, s);
      var ls := Rules(n.left);
      if i < |ls| {
        ProgramReach(n.left, s, i);
      } else {
        ProgramReach(n.right, s, i - |ls|);
      }
    }
  }

  lemma {:induction false} MarkersAreEnds(n: Node, p: Node) returns (i: nat)
    requires Program(n) && p in Leaves(n) && p.End?
    ensures i < |Rules(n)| && p == Marker(Rules(n)[i])
  {
    if Rule(n) {
      if n.Cat? { BodyLeaves(n.left); }
      i := 0;
    } else if p in Leaves(n.left) {
      i := MarkersAreEnds(n.left, p);
    } else {
      i := MarkersAreEnds(n.right, p);
      i := i + |Rules(n.left)|;
    }
  }
}
