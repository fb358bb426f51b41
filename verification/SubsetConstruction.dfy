/** The deterministic automaton built from leaf lists (`re_construct`). */
module SubsetConstruction {
  import opened Bitops
  import opened RegexTree
  import opened Glushkov
  import opened PositionAutomaton
  import opened NodeLists
  import opened Powers
  import opened Sequences

  function EmptyClass(): CharClass {
    seq(33, _ => 0 as bv8)
  }

  /** `bitops_set` on a character class. */
  function SetBit(v: CharClass, c: Byte): CharClass {
    v[c / 8 := v[c / 8] | Mask(c % 8)]
  }

  lemma SetBitSpec(v: CharClass, c: Byte, d: Byte)
    ensures IsSet(SetBit(v, c), d) <==> IsSet(v, d) || c == d
  {
    assert d / 8 == c / 8 && d % 8 == c % 8 ==> c == d;
    OrBits(v[c / 8], Mask(c % 8), d % 8);
    MaskBits(c % 8, d % 8);
  }

  lemma MaskBits(k: nat, j: nat)
    requires k < 8 && j < 8
    ensures Bit(Mask(k), j) == (j == k)
  {
  }

  lemma EmptyClassSpec(c: Byte)
    ensures !IsSet(EmptyClass(), c)
  {
  }

  /** `bitops_union` over the 32 bytes of a class. */
  method UnionClass(a: CharClass, b: CharClass) returns (r: CharClass)
    ensures forall c: Byte :: IsSet(r, c) <==> IsSet(a, c) || IsSet(b, c)
  {
    r := a;
    var i := 0;
    while i < 32
      invariant i <= 32
      invariant forall k: nat | k < 33 :: r[k] == if k < i then a[k] | b[k] else a[k]
    {
      r := r[i := r[i] | b[i]];
      i := i + 1;
    }
    forall c: Byte ensures IsSet(r, c) <==> IsSet(a, c) || IsSet(b, c) {
      OrBits(a[c / 8], b[c / 8], c % 8);
    }
  }

  lemma OrBits(a: bv8, b: bv8, k: nat)
    requires k < 8
    ensures Bit(a | b, k) == (Bit(a, k) || Bit(b, k))
  {
  }

  datatype Transition = Transition(target: nat, cclass: CharClass)

  datatype State = State(id: nat, acceptNum: int, cclass: CharClass, transitions: seq<Transition>, nodes: seq<Node>)

  /** The accept number of the first end marker of a list, -1 if it has none. */
  function AcceptNum(nodes: seq<Node>): int {
    if nodes == [] then -1 else if nodes[0].End? then nodes[0].accept else AcceptNum(nodes[1..])
  }

  /** The number is that of the end marker with the least id, -1 if there is no end marker. */
  ghost predicate LeastMarker(nodes: seq<Node>, accept: int) {
    if exists p :: p in nodes && p.End? then
      exists p :: p in nodes && p.End? && p.accept == accept && forall q | q in nodes && q.End? :: p.id <= q.id
    else accept == -1
  }

  method NewState(id: nat, nodes: seq<Node>) returns (s: State)
    ensures s == State(id, AcceptNum(nodes), EmptyClass(), [], nodes)
    ensures Sorted(nodes) ==> LeastMarker(nodes, s.acceptNum)
  {
    var accept := -1;
    var i := 0;
    while i < |nodes|
      invariant i <= |nodes|
      invariant AcceptNum(nodes) == AcceptNum(nodes[i..])
      invariant accept == -1 && forall k: nat | k < i :: !nodes[k].End?
    {
      if nodes[i].End? {
        accept := nodes[i].accept;
        assert nodes[i] in nodes;
        break;
      }
      i := i + 1;
    }
    s := State(id, accept, EmptyClass(), [], nodes);
  }

  lemma {:induction false} FirstOfNonNullable(n: Node)
    ensures Nullable(n) || First(n) != {}
  {
    match n
    case End(_, _) =>
    case Epsilon(_) =>
    case CClass(_, _) =>
    case Cat(_, l, r) => FirstOfNonNullable(l); FirstOfNonNullable(r);
    case Or(_, l, r) => FirstOfNonNullable(l); FirstOfNonNullable(r);
    case Star(_, _) =>
    case Paren(_, c) => FirstOfNonNullable(c);
  }

  lemma {:induction false} FollowOrLast(n: Node, p: Node)
    requires p in Leaves(n)
    ensures p in Last(n) || Follow(n, p) != {}
  {
    match n
    case End(_, _) =>
    case CClass(_, _) =>
    case Cat(_, l, r) =>
      FirstOfNonNullable(r);
      if p in Leaves(l) { FollowOrLast(l, p); } else { FollowOrLast(r, p); }
    case Or(_, l, r) =>
      if p in Leaves(l) { FollowOrLast(l, p); } else { FollowOrLast(r, p); }
    case Star(_, c) => FollowOrLast(c, p);
    case Paren(_, c) => FollowOrLast(c, p);
  }

  /** Every character class of a program has a follow list: no null list is ever compared. */
  lemma {:induction false} FollowNotEmpty(n: Node, p: Node)
    requires Program(n) && p in Leaves(n) && p.CClass?
    ensures Follow(n, p) != {}
  {
    if Rule(n) {
      FollowOrLast(n.left, p);
    } else if p in Leaves(n.left) {
      FollowNotEmpty(n.left, p);
    } else {
      FollowNotEmpty(n.right, p);
    }
  }

  lemma {:induction false} SameSizeWithout<T>(f: set<set<T>>, x: T)
    requires forall a | a in f :: x in a
    ensures |f| == |set a | a in f :: a - {x}|
    decreases |f|
  {
    if f != {} {
      var b :| b in f;
      var g := f - {b};
      SameSizeWithout(g, x);
      var fs, gs := (set a | a in f :: a - {x}), (set a | a in g :: a - {x});
      forall a | a in g ensures a - {x} != b - {x} {
        assert a == a - {x} + {x} && b == b - {x} + {x};
      }
      assert fs == gs + {b - {x}};
    }
  }

  ghost function Without<T>(f: set<set<T>>, x: T): set<set<T>> {
    set a | a in f && x !in a
  }

  ghost function With<T>(f: set<set<T>>, x: T): set<set<T>> {
    set a | a in f && x in a
  }

  lemma SplitFamily<T>(f: set<set<T>>, x: T)
    ensures |f| == |Without(f, x)| + |With(f, x)|
  {
    assert f == Without(f, x) + With(f, x);
    assert Without(f, x) !! With(f, x);
  }

  /** A family of subsets of `u` has at most 2^|u| members. */
  lemma {:induction false} FamilyBound<T>(f: set<set<T>>, u: set<T>)
    requires forall a | a in f :: a <= u
    ensures |f| <= Pow2(|u|)
    decreases |u|
  {
    if u == {} {
      forall a | a in f ensures a == {} {
      }
      assert f <= {{}};
      SetBound(f, {{}});
    } else {
      var x :| x in u;
      SplitFamily(f, x);
      var strip := set a | a in With(f, x) :: a - {x};
      SameSizeWithout(With(f, x), x);
      FamilyBound(Without(f, x), u - {x});
      FamilyBound(strip, u - {x});
    }
  }

  lemma {:induction false} SetBound<T>(a: set<T>, b: set<T>)
    requires a <= b
    ensures |a| <= |b|
    decreases |a|
  {
    if a != {} {
      var x :| x in a;
      SetBound(a - {x}, b - {x});
    }
  }

  lemma {:induction false} DistinctSize<T>(s: seq<T>)
    requires Distinct(s)
    ensures |set x | x in s| == |s|
  {
    if s != [] {
      var k := |s| - 1;
      DistinctSize(s[..k]);
      assert (set x | x in s) == (set x | x in s[..k]) + {s[k]};
    }
  }

  /** Pairwise different subsets of `u` number at most 2^|u|. */
  lemma DistinctSubsets(s: seq<set<Node>>, u: set<Node>)
    requires Distinct(s)
    requires forall a | a in s :: a <= u
    ensures |s| <= Pow2(|u|)
  {
    DistinctSize(s);
    FamilyBound((set x | x in s), u);
  }

  ghost function SetsOf(states: seq<State>): (r: seq<set<Node>>)
    ensures |r| == |states| && forall i: nat | i < |states| :: r[i] == Elems(states[i].nodes)
  {
    seq(|states|, i requires 0 <= i < |states| => Elems(states[i].nodes))
  }

  /** What holds of every state from the moment it is allocated. */
  ghost predicate Formed(n: Node, states: seq<State>) {
    && (forall i: nat | i < |states| ::
          states[i].id == i && states[i].nodes != [] && ListOver(states[i].nodes, Leaves(n))
          && states[i].acceptNum == AcceptNum(states[i].nodes))
    && (forall i: nat, j: nat | i < j < |states| :: Elems(states[i].nodes) != Elems(states[j].nodes))
  }

  /** The successor of a state for each input byte. */
  ghost function Goals(n: Node, nodes: seq<Node>): (g: map<Byte, set<Node>>)
    ensures forall c: Byte :: c in g && g[c] == Step(n, Elems(nodes), c)
  {
    map c: Byte | 0 <= c < 256 :: Step(n, Elems(nodes), c)
  }

  /** An edge leads to state `target` on exactly those bytes in `done` whose successor that state is. */
  ghost predicate EdgeExact(goal: map<Byte, set<Node>>, sets: seq<set<Node>>, t: Transition, done: set<Byte>) {
    && t.target < |sets|
    && forall c: Byte :: IsSet(t.cclass, c) <==> c in done && c in goal && sets[t.target] == goal[c]
  }

  ghost predicate HasEdge(st: State, c: Byte) {
    exists t: nat | t < |st.transitions| :: IsSet(st.transitions[t].cclass, c)
  }

  /** The edges of `st` are complete for the bytes in `done`: each of these has exactly one edge, to its successor. */
  ghost predicate Edges(goal: map<Byte, set<Node>>, sets: seq<set<Node>>, st: State, done: set<Byte>) {
    && (forall c: Byte :: IsSet(st.cclass, c) <==> c in done)
    && (forall t: nat | t < |st.transitions| :: EdgeExact(goal, sets, st.transitions[t], done))
    && (forall t: nat, u: nat | t < u < |st.transitions| :: st.transitions[t].target != st.transitions[u].target)
    && (forall c: Byte | c in done :: HasEdge(st, c))
  }

  lemma EdgesGrow(goal: map<Byte, set<Node>>, sets: seq<set<Node>>, more: seq<set<Node>>, st: State, done: set<Byte>)
    requires Edges(goal, sets, st, done) && sets <= more
    ensures Edges(goal, more, st, done)
  {
    forall t: nat | t < |st.transitions| ensures EdgeExact(goal, more, st.transitions[t], done) {
      assert EdgeExact(goal, sets, st.transitions[t], done);
    }
  }

  /** The position of the edge to `target`, or the number of edges: the list walk over `transitions`. */
  method FindEdge(ts: seq<Transition>, target: nat) returns (t: nat)
    ensures t <= |ts| && (t < |ts| ==> ts[t].target == target)
    ensures t == |ts| ==> forall k: nat | k < |ts| :: ts[k].target != target
  {
    t := 0;
    while t < |ts| && ts[t].target != target
      invariant t <= |ts| && forall k: nat | k < t :: ts[k].target != target
    {
      t := t + 1;
    }
  }

  /** `transition_add` of a fresh edge. */
  method AddTransition(st: State, target: nat, input: Byte,
                       ghost goal: map<Byte, set<Node>>, ghost sets: seq<set<Node>>, ghost done: set<Byte>)
    returns (r: State)
    requires Edges(goal, sets, st, done) && input in goal
    requires Distinct(sets) && target < |sets| && sets[target] == goal[input]
    requires forall k: nat | k < |st.transitions| :: st.transitions[k].target != target
    ensures r == st.(cclass := r.cclass, transitions := r.transitions)
    ensures Edges(goal, sets, r, done + {input})
  {
    hide IsSet;
    var e := Transition(target, SetBit(EmptyClass(), input));
    var cc := UnionClass(st.cclass, e.cclass);
    forall c: Byte ensures IsSet(e.cclass, c) <==> c == input {
      SetBitSpec(EmptyClass(), input, c);
      EmptyClassSpec(c);
    }
    r := st.(cclass := cc, transitions := [e] + st.transitions);
    forall t: nat | t < |st.transitions| ensures EdgeExact(goal, sets, st.transitions[t], done + {input}) {
      var u := st.transitions[t].target;
      assert EdgeExact(goal, sets, st.transitions[t], done);
      assert sets[u] != sets[target];
    }
    forall c: Byte | c in done ensures sets[target] != goal[c] {
      assert HasEdge(st, c);
      var t: nat :| t < |st.transitions| && IsSet(st.transitions[t].cclass, c);
      assert EdgeExact(goal, sets, st.transitions[t], done);
      assert sets[st.transitions[t].target] != sets[target];
    }
    forall c: Byte | c in done + {input} ensures HasEdge(r, c) {
      if c == input {
        assert IsSet(r.transitions[0].cclass, c);
      } else {
        assert HasEdge(st, c);
        var t: nat :| t < |st.transitions| && IsSet(st.transitions[t].cclass, c);
        assert IsSet(r.transitions[t + 1].cclass, c);
      }
    }
  }

  /** Marks `input` on the existing edge number `t`. */
  method ExtendTransition(st: State, t: nat, input: Byte,
                          ghost goal: map<Byte, set<Node>>, ghost sets: seq<set<Node>>, ghost done: set<Byte>)
    returns (r: State)
    requires Edges(goal, sets, st, done) && input in goal
    requires Distinct(sets) && t < |st.transitions|
    requires st.transitions[t].target < |sets| && sets[st.transitions[t].target] == goal[input]
    ensures r == st.(cclass := r.cclass, transitions := r.transitions)
    ensures Edges(goal, sets, r, done + {input})
  {
    hide IsSet;
    var e := st.transitions[t].(cclass := SetBit(st.transitions[t].cclass, input));
    forall c: Byte ensures IsSet(e.cclass, c) <==> IsSet(st.transitions[t].cclass, c) || c == input
                   ensures IsSet(SetBit(st.cclass, input), c) <==> IsSet(st.cclass, c) || c == input {
      SetBitSpec(st.transitions[t].cclass, input, c);
      SetBitSpec(st.cclass, input, c);
    }
    r := st.(cclass := SetBit(st.cclass, input), transitions := st.transitions[t := e]);
    forall k: nat | k < |r.transitions| ensures EdgeExact(goal, sets, r.transitions[k], done + {input}) {
      assert EdgeExact(goal, sets, st.transitions[k], done);
      if k != t {
        assert sets[st.transitions[k].target] != sets[st.transitions[t].target];
      }
    }
    forall c: Byte | c in done + {input} ensures HasEdge(r, c) {
      if c == input {
        assert IsSet(r.transitions[t].cclass, c);
      } else {
        assert HasEdge(st, c);
        var k: nat :| k < |st.transitions| && IsSet(st.transitions[k].cclass, c);
        assert IsSet(r.transitions[k].cclass, c);
      }
    }
  }

  /** The bytes some leaf of the list reads. */
  ghost function Readable(nodes: seq<Node>): set<Byte> {
    set c: Byte | 0 <= c < 256 && ReadBy(nodes, c)
  }

  ghost predicate ReadBy(nodes: seq<Node>, c: Byte) {
    exists i: nat | i < |nodes| :: Reads(nodes[i], c)
  }

  /** What the first `k` members of a list contribute when `c` is read. */
  ghost function Gathered(follow: map<Node, seq<Node>>, nodes: seq<Node>, k: nat, c: Byte): set<Node>
    requires k <= |nodes|
  {
    if k == 0 then {} else
    Gathered(follow, nodes, k - 1, c) + (if Reads(nodes[k - 1], c) then Elems(Lookup(follow, nodes[k - 1])) else {})
  }

  lemma {:induction false} GatheredMember(follow: map<Node, seq<Node>>, nodes: seq<Node>, k: nat, c: Byte, q: Node)
    requires k <= |nodes|
    ensures q in Gathered(follow, nodes, k, c) <==>
            exists j: nat | j < k :: Reads(nodes[j], c) && q in Elems(Lookup(follow, nodes[j]))
  {
    if k > 0 {
      GatheredMember(follow, nodes, k - 1, c, q);
    }
  }

  lemma GatheredIsStep(n: Node, follow: map<Node, seq<Node>>, nodes: seq<Node>, c: Byte)
    requires FollowLists(n, follow)
    ensures Gathered(follow, nodes, |nodes|, c) == Step(n, Elems(nodes), c)
  {
    forall q ensures q in Gathered(follow, nodes, |nodes|, c) <==> q in Step(n, Elems(nodes), c) {
      GatheredMember(follow, nodes, |nodes|, c, q);
      if q in Step(n, Elems(nodes), c) {
        var p :| p in Elems(nodes) && Reads(p, c) && q in Follow(n, p);
        var j: nat :| j < |nodes| && nodes[j] == p;
        assert q in Elems(Lookup(follow, nodes[j]));
      }
    }
  }

  /** The union loop over the members of a state that read `input`. */
  method MergeReaders(ghost u: set<Node>, follow: map<Node, seq<Node>>, nodes: seq<Node>, i: nat, input: Byte)
    returns (r: seq<Node>)
    requires UniqueIds(u) && forall p :: ListOver(Lookup(follow, p), u)
    requires i < |nodes| && Reads(nodes[i], input)
    ensures ListOver(r, u) && Elems(r) == Gathered(follow, nodes, |nodes|, input)
  {
    hide IsSet;
    r := Lookup(follow, nodes[i]);
    var j := 0;
    while j < |nodes|
      invariant j <= |nodes| && ListOver(r, u)
      invariant Elems(Lookup(follow, nodes[i])) <= Elems(r)
      invariant Elems(r) == Elems(Lookup(follow, nodes[i])) + Gathered(follow, nodes, j, input)
    {
      var more := Lookup(follow, nodes[j]);
      if i != j && nodes[j].CClass? && IsSet(nodes[j].cclass, input) && more != [] {
        MergeIsUnion(r, more, u);
        r := UnionNodes(r, more);
      } else {
        assert Reads(nodes[j], input) ==> Elems(more) <= Elems(Lookup(follow, nodes[i]));
      }
      j := j + 1;
    }
    GatheredHas(follow, nodes, |nodes|, input, i);
  }

  lemma {:induction false} GatheredHas(follow: map<Node, seq<Node>>, nodes: seq<Node>, k: nat, c: Byte, i: nat)
    requires i < k <= |nodes| && Reads(nodes[i], c)
    ensures Elems(Lookup(follow, nodes[i])) <= Gathered(follow, nodes, k, c)
  {
    if i < k - 1 {
      GatheredHas(follow, nodes, k - 1, c, i);
    }
  }

  method Successor(n: Node, follow: map<Node, seq<Node>>, nodes: seq<Node>, i: nat, input: Byte) returns (r: seq<Node>)
    requires Program(n) && Unshared(n) && FollowLists(n, follow)
    requires i < |nodes| && Reads(nodes[i], input) && ListOver(nodes, Leaves(n))
    ensures r != [] && ListOver(r, Leaves(n))
    ensures Elems(r) == Step(n, Elems(nodes), input)
  {
    UnsharedUnique(n);
    r := MergeReaders(Leaves(n), follow, nodes, i, input);
    GatheredIsStep(n, follow, nodes, input);
    GatheredHas(follow, nodes, |nodes|, input, i);
    FollowNotEmpty(n, nodes[i]);
    assert Elems(Lookup(follow, nodes[i])) == Follow(n, nodes[i]);
  }

  method FindState(n: Node, states: seq<State>, nodes: seq<Node>) returns (k: int)
    requires Formed(n, states) && Sorted(nodes)
    ensures k == -1 || 0 <= k < |states|
    ensures k >= 0 ==> Elems(states[k].nodes) == Elems(nodes)
    ensures k == -1 ==> forall j: nat | j < |states| :: Elems(states[j].nodes) != Elems(nodes)
  {
    var j := 0;
    while j < |states|
      invariant j <= |states|
      invariant forall i: nat | i < j :: Elems(states[i].nodes) != Elems(nodes)
    {
      var eq := EqualNodes(nodes, states[j].nodes);
      if eq { return j; }
      j := j + 1;
    }
    k := -1;
  }

  /** The edges of state `k` are complete for the bytes in `done`. */
  ghost predicate Processed(n: Node, states: seq<State>, k: nat, done: set<Byte>)
    requires k < |states|
  {
    Edges(Goals(n, states[k].nodes), SetsOf(states), states[k], done)
  }

  /** `next` keeps every state of `states` but for the edges of state `cur`, and may end with further states. */
  ghost predicate Extends(states: seq<State>, next: seq<State>, cur: nat) {
    && |states| <= |next| && cur < |states|
    && (forall k: nat | k < |states| && k != cur :: next[k] == states[k])
    && next[cur] == states[cur].(cclass := next[cur].cclass, transitions := next[cur].transitions)
  }

  lemma SetsExtend(states: seq<State>, next: seq<State>, cur: nat)
    requires Extends(states, next, cur)
    ensures SetsOf(states) <= SetsOf(next)
  {
    var a, b := SetsOf(states), SetsOf(next);
    forall k: nat | k < |a| ensures a[k] == b[k] {
    }
  }

  lemma ProcessedKept(n: Node, states: seq<State>, next: seq<State>, cur: nat, k: nat, done: set<Byte>)
    requires Extends(states, next, cur) && k < |states| && k != cur && Processed(n, states, k, done)
    ensures Processed(n, next, k, done)
  {
    SetsExtend(states, next, cur);
    EdgesGrow(Goals(n, states[k].nodes), SetsOf(states), SetsOf(next), states[k], done);
  }

  /** A state has no edges when it is allocated. */
  lemma FreshState(n: Node, states: seq<State>, k: nat)
    requires k < |states| && states[k].cclass == EmptyClass() && states[k].transitions == []
    ensures Processed(n, states, k, {})
  {
    forall c: Byte ensures !IsSet(states[k].cclass, c) { EmptyClassSpec(c); }
  }

  /** The states from number `from` on have no edges yet. */
  ghost predicate Untouched(n: Node, states: seq<State>, from: nat) {
    forall k: nat | from <= k < |states| :: Processed(n, states, k, {})
  }

  lemma ExtendsTwice(n: Node, a: seq<State>, b: seq<State>, c: seq<State>, cur: nat)
    requires Extends(a, b, cur) && Extends(b, c, cur) && Untouched(n, b, |a|) && Untouched(n, c, |b|)
    ensures Extends(a, c, cur) && Untouched(n, c, |a|)
  {
    forall k: nat | |a| <= k < |c| ensures Processed(n, c, k, {}) {
      if k < |b| { ProcessedKept(n, b, c, cur, k, {}); }
    }
  }

  /** The successor is known: its bit joins the edge that leads there, or a new edge is added. */
  method JoinState(n: Node, states: seq<State>, cur: nat, k: nat, input: Byte, ghost done: set<Byte>)
    returns (next: seq<State>)
    requires Formed(n, states) && cur < |states| && k < |states| && Processed(n, states, cur, done)
    requires Elems(states[k].nodes) == Step(n, Elems(states[cur].nodes), input)
    ensures Formed(n, next) && Extends(states, next, cur) && |next| == |states|
    ensures Processed(n, next, cur, done + {input})
  {
    hide IsSet, Step, AcceptNum, HasEdge, EdgeExact;
    ghost var goal := Goals(n, states[cur].nodes);
    ghost var sets := SetsOf(states);
    var t := FindEdge(states[cur].transitions, k);
    var st;
    if t < |states[cur].transitions| {
      st := ExtendTransition(states[cur], t, input, goal, sets, done);
    } else {
      st := AddTransition(states[cur], k, input, goal, sets, done);
    }
    next := states[cur := st];
    assert SetsOf(next) == sets;
  }

  /** The successor is new: it is allocated and a new edge leads to it. */
  method AddState(n: Node, states: seq<State>, cur: nat, nodes: seq<Node>, input: Byte, ghost done: set<Byte>)
    returns (next: seq<State>)
    requires Formed(n, states) && cur < |states| && Processed(n, states, cur, done)
    requires nodes != [] && ListOver(nodes, Leaves(n)) && Elems(nodes) == Step(n, Elems(states[cur].nodes), input)
    requires forall j: nat | j < |states| :: Elems(states[j].nodes) != Elems(nodes)
    ensures Formed(n, next) && Extends(states, next, cur) && Untouched(n, next, |states|)
    ensures Processed(n, next, cur, done + {input})
  {
    hide IsSet, Step, AcceptNum;
    ghost var goal := Goals(n, states[cur].nodes);
    var added := NewState(|states|, nodes);
    var all := states + [added];
    ghost var sets := SetsOf(all);
    assert SetsOf(states) <= sets;
    EdgesGrow(goal, SetsOf(states), sets, states[cur], done);
    forall e: nat | e < |states[cur].transitions| ensures states[cur].transitions[e].target != |states| {
      assert EdgeExact(goal, SetsOf(states), states[cur].transitions[e], done);
    }
    var st := AddTransition(states[cur], |states|, input, goal, sets, done);
    next := all[cur := st];
    assert SetsOf(next) == sets;
    FreshState(n, next, |states|);
  }

  /** The loop body for one input byte: finds or allocates the successor and records the edge. */
  method Advance(n: Node, follow: map<Node, seq<Node>>, states: seq<State>, cur: nat, i: nat, input: Byte,
                 ghost done: set<Byte>)
    returns (next: seq<State>)
    requires Program(n) && Unshared(n) && FollowLists(n, follow)
    requires Formed(n, states) && cur < |states| && Processed(n, states, cur, done)
    requires i < |states[cur].nodes| && Reads(states[cur].nodes[i], input)
    ensures Formed(n, next) && Extends(states, next, cur)
    ensures Processed(n, next, cur, done + {input})
    ensures Untouched(n, next, |states|)
  {
    var nodes := Successor(n, follow, states[cur].nodes, i, input);
    var k := FindState(n, states, nodes);
    if k >= 0 {
      next := JoinState(n, states, cur, k, input, done);
    } else {
      next := AddState(n, states, cur, nodes, input, done);
    }
  }

  lemma StatesBound(n: Node, states: seq<State>)
    requires Formed(n, states)
    ensures |states| <= Pow2(|Leaves(n)|)
  {
    var sets := SetsOf(states);
    forall a | a in sets ensures a <= Leaves(n) {
      var k: nat :| k < |sets| && sets[k] == a;
    }
    DistinctSubsets(sets, Leaves(n));
  }

  ghost function ClassBytes(p: Node): set<Byte> {
    set c: Byte | 0 <= c < 256 && Reads(p, c)
  }

  /** The least byte after `offset` in a class, -1 if there is none. */
  method NextByte(v: CharClass, offset: int) returns (r: int)
    requires -1 <= offset < 256
    ensures r == -1 || (offset < r < 256 && IsSet(v, r))
    ensures forall c: Byte | offset < c && (r == -1 || c < r) :: !IsSet(v, c)
  {
    r := NextSet(v[..32], offset);
    forall c: Byte ensures IsSet(v[..32], c) == IsSet(v, c) {
    }
  }

  /** The loop over the input bytes of one member of the state. */
  method AdvanceMember(n: Node, follow: map<Node, seq<Node>>, states: seq<State>, cur: nat, i: nat,
                       ghost done: set<Byte>)
    returns (next: seq<State>)
    requires Program(n) && Unshared(n) && FollowLists(n, follow)
    requires Formed(n, states) && cur < |states| && Processed(n, states, cur, done)
    requires i < |states[cur].nodes|
    ensures Formed(n, next) && Extends(states, next, cur) && Untouched(n, next, |states|)
    ensures Processed(n, next, cur, done + ClassBytes(states[cur].nodes[i]))
  {
    hide IsSet, Formed, Edges;
    next := states;
    var p := states[cur].nodes[i];
    if p.CClass? {
      var input := NextByte(p.cclass, -1);
      ghost var seen: set<Byte> := {};
      assert done + seen == done;
      while input != -1
        invariant input == -1 || (0 <= input < 256 && Reads(p, input))
        invariant Formed(n, next) && Extends(states, next, cur) && Untouched(n, next, |states|)
        invariant Processed(n, next, cur, done + seen)
        invariant forall c: Byte :: c in seen <==> Reads(p, c) && (input == -1 || c < input)
        decreases if input == -1 then 0 else 257 - input
      {
        var step := Advance(n, follow, next, cur, i, input, done + seen);
        ExtendsTwice(n, states, next, step, cur);
        assert done + seen + {input} == done + (seen + {input});
        next := step;
        seen := seen + {input};
        input := NextByte(p.cclass, input);
      }
      assert seen == ClassBytes(p);
    } else {
      assert ClassBytes(p) == {};
      assert done + {} == done;
    }
  }

  /** The loop over the members of one state. */
  method AdvanceState(n: Node, follow: map<Node, seq<Node>>, states: seq<State>, cur: nat)
    returns (next: seq<State>)
    requires Program(n) && Unshared(n) && FollowLists(n, follow)
    requires Formed(n, states) && cur < |states| && Processed(n, states, cur, {})
    ensures Formed(n, next) && Extends(states, next, cur) && Untouched(n, next, |states|)
    ensures Processed(n, next, cur, Readable(states[cur].nodes))
  {
    hide IsSet, Formed, Edges;
    next := states;
    var nodes := states[cur].nodes;
    ghost var done: set<Byte> := {};
    var i := 0;
    while i < |nodes|
      invariant i <= |nodes|
      invariant Formed(n, next) && Extends(states, next, cur) && Untouched(n, next, |states|)
      invariant Processed(n, next, cur, done)
      invariant forall c: Byte :: c in done <==> ReadBy(nodes[..i], c)
    {
      var step := AdvanceMember(n, follow, next, cur, i, done);
      ExtendsTwice(n, states, next, step, cur);
      next := step;
      done := done + ClassBytes(nodes[i]);
      i := i + 1;
      forall c: Byte ensures ReadBy(nodes[..i], c) <==> ReadBy(nodes[..i - 1], c) || Reads(nodes[i - 1], c) {
        assert nodes[..i] == nodes[..i - 1] + [nodes[i - 1]];
        if Reads(nodes[i - 1], c) { assert Reads(nodes[..i][i - 1], c); }
        if ReadBy(nodes[..i - 1], c) {
          var k: nat :| k < i - 1 && Reads(nodes[..i - 1][k], c);
          assert Reads(nodes[..i][k], c);
        }
      }
    }
    assert nodes[..i] == nodes;
    assert done == Readable(nodes);
  }

  /** Everything the finished automaton guarantees. */
  ghost predicate Automaton(n: Node, states: seq<State>) {
    && Formed(n, states) && |states| > 0 && Elems(states[0].nodes) == First(n)
    && forall k: nat | k < |states| :: Processed(n, states, k, Readable(states[k].nodes))
  }

  /** `re_construct`: terminates with at most 2^positions states. */
  method Construct(n: Node, follow: map<Node, seq<Node>>) returns (states: seq<State>)
    requires Program(n) && Unshared(n) && FollowLists(n, follow)
    ensures Automaton(n, states)
    ensures |states| <= Pow2(|Leaves(n)|)
  {
    UnsharedUnique(n);
    FirstLastLists(n, Leaves(n));
    ProgramFirst(n);
    var start := NewState(0, FirstNodes(n));
    states := [start];
    FreshState(n, states, 0);
    StatesBound(n, states);
    var cur := 0;
    while cur < |states|
      invariant cur <= |states| <= Pow2(|Leaves(n)|)
      invariant Formed(n, states) && |states| > 0 && Elems(states[0].nodes) == First(n)
      invariant forall k: nat | k < cur :: Processed(n, states, k, Readable(states[k].nodes))
      invariant Untouched(n, states, cur)
      decreases Pow2(|Leaves(n)|) - cur
    {
      var next := AdvanceState(n, follow, states, cur);
      forall k: nat | k < cur ensures Processed(n, next, k, Readable(next[k].nodes)) {
        ProcessedKept(n, states, next, cur, k, Readable(states[k].nodes));
      }
      forall k: nat | cur < k < |next| ensures Processed(n, next, k, {}) {
        if k < |states| { ProcessedKept(n, states, next, cur, k, {}); }
      }
      StatesBound(n, next);
      states := next;
      cur := cur + 1;
    }
  }

  lemma {:induction false} ProgramFirst(n: Node)
    requires Program(n)
    ensures First(n) != {}
  {
    if Rule(n) { FirstOfNonNullable(n); } else { ProgramFirst(n.left); }
  }
}
