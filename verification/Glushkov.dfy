/** First, last and follow sets of an expression tree decide its language. */
module Glushkov {
  import opened RegexTree

  function Nullable(n: Node): bool {
    match n
    case End(_, _) => false
    case Epsilon(_) => true
    case CClass(_, _) => false
    case Cat(_, l, r) => Nullable(l) && Nullable(r)
    case Or(_, l, r) => Nullable(l) || Nullable(r)
    case Star(_, _) => true
    case Paren(_, c) => Nullable(c)
  }

  function First(n: Node): set<Node> {
    match n
    case End(_, _) => {n}
    case Epsilon(_) => {}
    case CClass(_, _) => {n}
    case Cat(_, l, r) => if Nullable(l) then First(l) + First(r) else First(l)
    case Or(_, l, r) => First(l) + First(r)
    case Star(_, c) => First(c)
    case Paren(_, c) => First(c)
  }

  function Last(n: Node): set<Node> {
    match n
    case End(_, _) => {n}
    case Epsilon(_) => {}
    case CClass(_, _) => {n}
    case Cat(_, l, r) => if Nullable(r) then Last(l) + Last(r) else Last(r)
    case Or(_, l, r) => Last(l) + Last(r)
    case Star(_, c) => Last(c)
    case Paren(_, c) => Last(c)
  }

  /** The leaves that may come directly after leaf `p` in a string of `n`. */
  function Follow(n: Node, p: Node): set<Node> {
    match n
    case End(_, _) => {}
    case Epsilon(_) => {}
    case CClass(_, _) => {}
    case Cat(_, l, r) => Follow(l, p) + Follow(r, p) + (if p in Last(l) then First(r) else {})
    case Or(_, l, r) => Follow(l, p) + Follow(r, p)
    case Star(_, c) => Follow(c, p) + (if p in Last(c) then First(c) else {})
    case Paren(_, c) => Follow(c, p)
  }

  ghost predicate Chain(n: Node, ps: seq<Node>) {
    forall i: nat | i + 1 < |ps| :: ps[i + 1] in Follow(n, ps[i])
  }

  ghost predicate Spells(ps: seq<Node>, s: seq<Byte>) {
    |ps| == |s| && forall i: nat | i < |s| :: Reads(ps[i], s[i])
  }

  /** A walk over the leaves of `n` that reads `s`. */
  ghost predicate Path(n: Node, ps: seq<Node>, s: seq<Byte>) {
    |ps| > 0 && ps[0] in First(n) && ps[|ps| - 1] in Last(n) && Chain(n, ps) && Spells(ps, s)
  }

  lemma {:induction false} InLeaves(n: Node)
    ensures First(n) <= Leaves(n) && Last(n) <= Leaves(n)
  {
    match n
    case End(_, _) =>
    case Epsilon(_) =>
    case CClass(_, _) =>
    case Cat(_, l, r) => InLeaves(l); InLeaves(r);
    case Or(_, l, r) => InLeaves(l); InLeaves(r);
    case Star(_, c) => InLeaves(c);
    case Paren(_, c) => InLeaves(c);
  }

  lemma {:induction false} FollowInLeaves(n: Node, p: Node)
    ensures Follow(n, p) <= Leaves(n)
    ensures p !in Leaves(n) ==> Follow(n, p) == {}
  {
    match n
    case End(_, _) =>
    case Epsilon(_) =>
    case CClass(_, _) =>
    case Cat(_, l, r) =>
      FollowInLeaves(l, p); FollowInLeaves(r, p); InLeaves(l); InLeaves(r);
    case Or(_, l, r) => FollowInLeaves(l, p); FollowInLeaves(r, p);
    case Star(_, c) => FollowInLeaves(c, p); InLeaves(c);
    case Paren(_, c) => FollowInLeaves(c, p);
  }

  lemma {:induction false} NullableMatchesEmpty(n: Node)
    requires Body(n)
    ensures Nullable(n) == Matches(n, [])
  {
    match n
    case Epsilon(_) =>
    case CClass(_, _) =>
    case Cat(_, l, r) =>
      NullableMatchesEmpty(l); NullableMatchesEmpty(r);
      var e: seq<Byte> := [];
      assert e[..0] == e && e[0..] == e;
    case Or(_, l, r) => NullableMatchesEmpty(l); NullableMatchesEmpty(r);
    case Star(_, c) =>
    case Paren(_, c) => NullableMatchesEmpty(c);
  }

  /** Two walks joined by a follow edge make one walk. */
  lemma JoinChains(n: Node, ps: seq<Node>, qs: seq<Node>)
    requires Chain(n, ps) && Chain(n, qs) && |ps| > 0 && |qs| > 0
    requires qs[0] in Follow(n, ps[|ps| - 1])
    ensures Chain(n, ps + qs)
  {
    var rs := ps + qs;
    forall i: nat | i + 1 < |rs| ensures rs[i + 1] in Follow(n, rs[i]) {
      if i + 1 < |ps| {
        assert rs[i] == ps[i] && rs[i + 1] == ps[i + 1];
      } else if i >= |ps| {
        var j := i - |ps|;
        assert rs[i] == qs[j] && rs[i + 1] == qs[j + 1];
      }
    }
  }

  /** A walk of a subexpression is a walk of the whole when follow edges only grow. */
  lemma ChainMono(m: Node, n: Node, ps: seq<Node>)
    requires forall p :: Follow(m, p) <= Follow(n, p)
    requires Chain(m, ps)
    ensures Chain(n, ps)
  {
    forall i: nat | i + 1 < |ps| ensures ps[i + 1] in Follow(n, ps[i]) {
      assert Follow(m, ps[i]) <= Follow(n, ps[i]);
    }
  }

  /** Every nonempty string of the language is spelled by a walk. */
  lemma {:induction false} Complete(n: Node, s: seq<Byte>) returns (ps: seq<Node>)
    requires Body(n) && s != [] && Matches(n, s)
    ensures Path(n, ps, s)
    decreases n, |s|
  {
    match n
    case CClass(_, _) => ps := [n];
    case Cat(_, l, r) =>
      var k: nat :| k <= |s| && Matches(l, s[..k]) && Matches(r, s[k..]);
      ps := CompleteCat(n, s, k);
    case Or(_, l, r) =>
      if Matches(l, s) { ps := Complete(l, s); ChainMono(l, n, ps); }
      else { ps := Complete(r, s); ChainMono(r, n, ps); }
    case Star(_, c) =>
      var k: nat :| 0 < k <= |s| && Matches(c, s[..k]) && Matches(n, s[k..]);
      ps := Complete(c, s[..k]);
      ChainMono(c, n, ps);
      if k < |s| {
        var qs := Complete(n, s[k..]);
        JoinChains(n, ps, qs);
        ps := ps + qs;
      } else {
        assert s[..k] == s;
      }
    case Paren(_, c) => ps := Complete(c, s); ChainMono(c, n, ps);
  }

  lemma {:induction false} CompleteCat(n: Node, s: seq<Byte>, k: nat) returns (ps: seq<Node>)
    requires n.Cat? && Body(n) && s != []
    requires k <= |s| && Matches(n.left, s[..k]) && Matches(n.right, s[k..])
    ensures Path(n, ps, s)
    decreases n, 0
  {
    var l, r := n.left, n.right;
    NullableMatchesEmpty(l);
    NullableMatchesEmpty(r);
    if k == 0 {
      assert s[..k] == [] && s[k..] == s;
      ps := Complete(r, s);
      ChainMono(r, n, ps);
    } else if k == |s| {
      assert s[..k] == s && s[k..] == [];
      ps := Complete(l, s);
      ChainMono(l, n, ps);
    } else {
      ps := Complete(l, s[..k]);
      var qs := Complete(r, s[k..]);
      ChainMono(l, n, ps);
      ChainMono(r, n, qs);
      JoinChains(n, ps, qs);
      ps := ps + qs;
    }
  }

  /** A walk of a concatenation visits leaves of the left operand, then leaves of the right one. */
  lemma CatSplit(n: Node, ps: seq<Node>) returns (k: nat)
    requires n.Cat? && Unshared(n) && Chain(n, ps)
    requires |ps| > 0 && ps[0] in First(n)
    ensures k <= |ps|
    ensures forall i: nat | i < k :: ps[i] in Leaves(n.left)
    ensures forall i: nat | k <= i < |ps| :: ps[i] in Leaves(n.right) && ps[i] !in Leaves(n.left)
  {
    InLeaves(n);
    k := 0;
    while k < |ps| && ps[k] in Leaves(n.left)
      invariant k <= |ps|
      invariant forall i: nat | i < k :: ps[i] in Leaves(n.left)
      invariant k < |ps| ==> ps[k] in Leaves(n)
    {
      FollowInLeaves(n, ps[k]);
      k := k + 1;
    }
    var j := k;
    while j < |ps|
      invariant k <= j <= |ps|
      invariant forall i: nat | k <= i < j :: ps[i] in Leaves(n.right)
      invariant j < |ps| ==> ps[j] in Leaves(n.right)
    {
      FollowInLeaves(n.left, ps[j]);
      FollowInLeaves(n.right, ps[j]);
      InLeaves(n.left);
      InLeaves(n.right);
      j := j + 1;
    }
  }

  /** Within one operand, a concatenation adds no follow edges. */
  lemma CatEdge(n: Node, p: Node, q: Node)
    requires n.Cat? && Unshared(n) && q in Follow(n, p)
    ensures q in Leaves(n.left) ==> q in Follow(n.left, p)
    ensures p in Leaves(n.right) ==> q in Follow(n.right, p)
    ensures p in Leaves(n.left) && q in Leaves(n.right) ==> p in Last(n.left) && q in First(n.right)
  {
    FollowInLeaves(n.left, p);
    FollowInLeaves(n.right, p);
    InLeaves(n.left);
    InLeaves(n.right);
  }

  lemma CatPaths(n: Node, ps: seq<Node>, s: seq<Byte>, k: nat)
    requires n.Cat? && Unshared(n) && Path(n, ps, s) && k <= |ps|
    requires forall i: nat | i < k :: ps[i] in Leaves(n.left)
    requires forall i: nat | k <= i < |ps| :: ps[i] in Leaves(n.right) && ps[i] !in Leaves(n.left)
    ensures if k == 0 then Nullable(n.left) else Path(n.left, ps[..k], s[..k])
    ensures if k == |ps| then Nullable(n.right) else Path(n.right, ps[k..], s[k..])
  {
    InLeaves(n.left);
    InLeaves(n.right);
    if k > 0 {
      forall i: nat | i + 1 < k ensures ps[i + 1] in Follow(n.left, ps[i]) {
        CatEdge(n, ps[i], ps[i + 1]);
      }
    }
    forall i: nat | k <= i && i + 1 < |ps| ensures ps[i + 1] in Follow(n.right, ps[i]) {
      CatEdge(n, ps[i], ps[i + 1]);
    }
    if 0 < k < |ps| {
      CatEdge(n, ps[k - 1], ps[k]);
    }
  }

  /** Every walk spells a string of the language. */
  lemma {:induction false} Sound(n: Node, ps: seq<Node>, s: seq<Byte>)
    requires Body(n) && Unshared(n) && Path(n, ps, s)
    ensures Matches(n, s)
    decreases n, |s|
  {
    match n
    case CClass(_, _) =>
      assert |ps| > 1 ==> ps[0 + 1] in Follow(n, ps[0]);
    case Cat(_, l, r) =>
      var k := CatSplit(n, ps);
      CatPaths(n, ps, s, k);
      NullableMatchesEmpty(l);
      NullableMatchesEmpty(r);
      assert k == 0 ==> s[..k] == [];
      assert k == |s| ==> s[k..] == [];
      if k > 0 { Sound(l, ps[..k], s[..k]); }
      if k < |ps| { Sound(r, ps[k..], s[k..]); }
    case Or(_, l, r) =>
      SoundOr(n, ps, s);
    case Star(_, c) =>
      var k := StarSplit(n, ps);
      Sound(c, ps[..k], s[..k]);
      if k < |ps| {
        Sound(n, ps[k..], s[k..]);
      } else {
        assert s[k..] == [];
      }
    case Paren(_, c) =>
      ChainMono(n, c, ps);
      Sound(c, ps, s);
  }

  /** The first pass through the child of a starred expression. */
  lemma StarSplit(n: Node, ps: seq<Node>) returns (k: nat)
    requires n.Star? && |ps| > 0 && Chain(n, ps)
    requires ps[0] in First(n) && ps[|ps| - 1] in Last(n)
    ensures 0 < k <= |ps|
    ensures Chain(n.child, ps[..k]) && ps[k - 1] in Last(n.child)
    ensures k < |ps| ==> ps[k] in First(n.child) && Chain(n, ps[k..])
  {
    k := 1;
    while k < |ps| && ps[k] in Follow(n.child, ps[k - 1])
      invariant 0 < k <= |ps|
      invariant Chain(n.child, ps[..k])
    {
      k := k + 1;
    }
    if k < |ps| {
      assert ps[k - 1 + 1] in Follow(n, ps[k - 1]);
    }
  }

  lemma {:induction false} SoundOr(n: Node, ps: seq<Node>, s: seq<Byte>)
    requires n.Or? && Body(n) && Unshared(n) && Path(n, ps, s)
    ensures Matches(n, s)
    decreases n, 0
  {
    var m := if ps[0] in First(n.left) then n.left else n.right;
    var o := if ps[0] in First(n.left) then n.right else n.left;
    InLeaves(n.left);
    InLeaves(n.right);
    var i: nat := 0;
    while i + 1 < |ps|
      invariant i < |ps| && ps[i] in Leaves(m)
      invariant forall j: nat | j < i :: ps[j + 1] in Follow(m, ps[j])
    {
      FollowInLeaves(o, ps[i]);
      FollowInLeaves(m, ps[i]);
      assert ps[i + 1] in Follow(n, ps[i]);
      i := i + 1;
    }
    Sound(m, ps, s);
  }
}
