/** Expression trees of the regex compiler and their language. */
module RegexTree {
  import opened Bitops

  type Byte = x: nat | x < 256

  /** A character class: 33 bytes of which the first 32 hold one bit per input byte. */
  type CharClass = v: seq<bv8> | |v| == 33 witness seq(33, _ => 0 as bv8)

  datatype Node =
    | End(id: nat, accept: int)
    | Epsilon(id: nat)
    | CClass(id: nat, cclass: CharClass)
    | Cat(id: nat, left: Node, right: Node)
    | Or(id: nat, left: Node, right: Node)
    | Star(id: nat, child: Node)
    | Paren(id: nat, child: Node)

  predicate Reads(p: Node, c: Byte) {
    p.CClass? && IsSet(p.cclass, c)
  }

  /** The strings an expression denotes. An `End` marker denotes the empty string. */
  ghost predicate Matches(n: Node, s: seq<Byte>)
    decreases n, |s|
  {
    match n
    case End(_, _) => s == []
    case Epsilon(_) => s == []
    case CClass(_, _) => |s| == 1 && Reads(n, s[0])
    case Cat(_, l, r) => exists k: nat | k <= |s| :: Matches(l, s[..k]) && Matches(r, s[k..])
    case Or(_, l, r) => Matches(l, s) || Matches(r, s)
    case Star(_, c) => s == [] || exists k: nat | 0 < k <= |s| :: Matches(c, s[..k]) && Matches(n, s[k..])
    case Paren(_, c) => Matches(c, s)
  }

  /** A body holds no `End` marker. */
  predicate Body(n: Node) {
    match n
    case End(_, _) => false
    case Epsilon(_) => true
    case CClass(_, _) => true
    case Cat(_, l, r) => Body(l) && Body(r)
    case Or(_, l, r) => Body(l) && Body(r)
    case Star(_, c) => Body(c)
    case Paren(_, c) => Body(c)
  }

  /** The leaves that first, last and follow sets are made of. */
  function Leaves(n: Node): set<Node> {
    match n
    case End(_, _) => {n}
    case Epsilon(_) => {}
    case CClass(_, _) => {n}
    case Cat(_, l, r) => Leaves(l) + Leaves(r)
    case Or(_, l, r) => Leaves(l) + Leaves(r)
    case Star(_, c) => Leaves(c)
    case Paren(_, c) => Leaves(c)
  }

  ghost predicate ApartIds(a: set<Node>, b: set<Node>) {
    forall p, q | p in a && q in b :: p.id != q.id
  }

  /** No leaf occurs twice: every leaf was allocated with an id of its own. */
  ghost predicate Unshared(n: Node) {
    match n
    case End(_, _) => true
    case Epsilon(_) => true
    case CClass(_, _) => true
    case Cat(_, l, r) => Unshared(l) && Unshared(r) && ApartIds(Leaves(l), Leaves(r))
    case Or(_, l, r) => Unshared(l) && Unshared(r) && ApartIds(Leaves(l), Leaves(r))
    case Star(_, c) => Unshared(c)
    case Paren(_, c) => Unshared(c)
  }
}
