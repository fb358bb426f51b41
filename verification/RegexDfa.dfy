/** The table-driven matcher: compilation of a program into tables and the three `match` operations. */
module RegexDfa {
  import opened Bitops
  import opened RegexTree
  import opened Glushkov
  import opened PositionAutomaton
  import opened NodeLists
  import opened SubsetConstruction
  import opened TransitionTables
  import opened PatternVerdict
  import opened Powers
  import opened Sequences

  /** Used cells survive, and every other cell in use belongs to state `id`. */
  ghost predicate Preserves(check: seq<int>, next: seq<int>, check': seq<int>, next': seq<int>, id: nat) {
    && |check| <= |check'| && |next| <= |next'|
    && (forall k: nat | k < |check| && check[k] != -1 ::
          check'[k] == check[k] && (k < |next| ==> next'[k] == next[k]))
    && (forall k: nat | k < |check'| :: check'[k] == -1 || check'[k] == id || (k < |check| && check'[k] == check[k]))
  }

  lemma EncodedKept(st: State, b: int, id: nat, check: seq<int>, next: seq<int>, check': seq<int>, next': seq<int>)
    requires Encoded(st, b, check, next) && st.id != id && WellEdged(st)
    requires Preserves(check, next, check', next', id)
    ensures Encoded(st, b, check', next')
  {
    forall c: Byte ensures check'[b + c] == st.id <==> IsSet(st.cclass, c) {
      assert check[b + c] == st.id <==> IsSet(st.cclass, c);
    }
    forall t: nat, c: Byte | t < |st.transitions| && IsSet(st.transitions[t].cclass, c)
      ensures b + c < |next'| && next'[b + c] == st.transitions[t].target {
      assert IsSet(st.cclass, c);
      assert check[b + c] == st.id;
    }
  }

  /** Places one state: finds its base, grows the tables, fills its row. */
  method PlaceState(st: State, next: seq<int>, check: seq<int>, ghost done: set<nat>)
    returns (b: nat, next': seq<int>, check': seq<int>)
    requires WellEdged(st) && st.id !in done && CellsOwned(done, check, next)
    ensures Encoded(st, b, check', next') && Preserves(check, next, check', next', st.id)
    ensures CellsOwned(done + {st.id}, check', next')
  {
    var c1;
    b, c1 := FindBase(st.cclass, check);
    var c2 := Grow(c1, b + 255, -1);
    var n2 := next;
    if c2[b + 255] == -1 {
      n2 := Grow(next, b + 255, 0)[b + 255 := 0];
    }
    assert forall k: nat | k < |c2| :: c2[k] == if k < |check| then check[k] else -1;
    assert forall k: nat | k < |check| && check[k] != -1 && k < |next| :: n2[k] == next[k];
    check', next' := FillRow(st, b, c2, n2);
    RowWasFree(st, b, c1, c2);
  }

  lemma RowWasFree(st: State, b: nat, c1: seq<int>, c2: seq<int>)
    requires RowFree(st.cclass, b, c1) && OnlyGrown(c1, c2) && b + 256 <= |c2|
    ensures forall k: nat | b <= k < b + 256 && IsSet(st.cclass, k - b) :: c2[k] == -1
  {
    forall k: nat | b <= k < b + 256 && IsSet(st.cclass, k - b) ensures c2[k] == -1 {
      var c: Byte := k - b;
      if b + c < |c1| { assert c1[b + c] == -1; }
    }
  }

  lemma TwiceInSeq<T>(a: seq<T>, i: nat, j: nat)
    requires i < j < |a| && a[i] == a[j]
    ensures multiset(a)[a[i]] >= 2
  {
    assert a == a[..j] + [a[j]] + a[j + 1..];
    assert a[i] in a[..j];
  }

  lemma {:induction false} OnceInSeq<T>(a: seq<T>, x: T)
    requires Distinct(a)
    ensures multiset(a)[x] <= 1
  {
    if a != [] {
      var k := |a| - 1;
      OnceInSeq(a[..k], x);
      assert a == a[..k] + [a[k]];
      if x == a[k] {
        assert x !in a[..k];
      }
    }
  }

  /** A reordering of the states holds each id once. */
  lemma OrderKeepsIds(order: seq<State>, states: seq<State>)
    requires Buildable(states) && multiset(order) == multiset(states)
    ensures forall i: nat | i < |order| :: order[i].id < |states| && order[i] == states[order[i].id]
    ensures forall i: nat, j: nat | i < j < |order| :: order[i].id != order[j].id
    ensures forall k: nat | k < |states| :: states[k] in order
  {
    forall i: nat | i < |order| ensures order[i].id < |states| && order[i] == states[order[i].id] {
      assert order[i] in multiset(states);
    }
    forall i: nat, j: nat | i < j < |order| ensures order[i].id != order[j].id {
      if order[i].id == order[j].id {
        TwiceInSeq(order, i, j);
        OnceInSeq(states, order[i]);
      }
    }
    forall k: nat | k < |states| ensures states[k] in order {
      assert states[k] in multiset(order);
    }
  }

  /** The tables agree with the automaton. */
  ghost predicate Tabulated(states: seq<State>, base: seq<int>, accept: seq<int>, next: seq<int>, check: seq<int>) {
    && |states| <= |base| && |states| <= |accept|
    && forall k: nat | k < |states| :: accept[k] == states[k].acceptNum && Encoded(states[k], base[k], check, next)
  }

  /** An automaton meets what the table builder relies on. */
  lemma AutomatonBuildable(n: Node, states: seq<State>)
    requires Automaton(n, states)
    ensures Buildable(states)
    ensures forall k: nat, t: nat | k < |states| && t < |states[k].transitions| ::
      states[k].transitions[t].target < |states|
  {
    forall k: nat | k < |states|
      ensures WellEdged(states[k])
      ensures forall t: nat | t < |states[k].transitions| :: states[k].transitions[t].target < |states| {
      AutomatonEdges(n, states, k);
    }
  }

  lemma AutomatonEdges(n: Node, states: seq<State>, k: nat)
    requires Automaton(n, states) && k < |states|
    ensures WellEdged(states[k])
    ensures forall t: nat | t < |states[k].transitions| :: states[k].transitions[t].target < |states|
  {
    var st := states[k];
    var goal, sets, done := Goals(n, st.nodes), SetsOf(states), Readable(st.nodes);
    assert Processed(n, states, k, done);
    forall t: nat | t < |st.transitions| ensures EdgeExact(goal, sets, st.transitions[t], done) {
    }
    forall t: nat, u: nat, c: Byte | t < u < |st.transitions|
      ensures !(IsSet(st.transitions[t].cclass, c) && IsSet(st.transitions[u].cclass, c)) {
      assert EdgeExact(goal, sets, st.transitions[t], done);
      assert EdgeExact(goal, sets, st.transitions[u], done);
      assert sets[st.transitions[t].target] != sets[st.transitions[u].target];
    }
    forall t: nat, c: Byte | t < |st.transitions| && IsSet(st.transitions[t].cclass, c) ensures IsSet(st.cclass, c) {
      assert EdgeExact(goal, sets, st.transitions[t], done);
    }
  }

  /** From state `k` a byte leads to the successor set, or to no state when that set is empty. */
  lemma AutomatonStep(n: Node, states: seq<State>, k: nat, c: Byte)
    requires Program(n) && Automaton(n, states) && k < |states|
    ensures states[k].id == k
    ensures IsSet(states[k].cclass, c) <==> Step(n, Elems(states[k].nodes), c) != {}
    ensures IsSet(states[k].cclass, c) ==> HasEdge(states[k], c)
    ensures forall t: nat | t < |states[k].transitions| && IsSet(states[k].transitions[t].cclass, c) ::
      states[k].transitions[t].target < |states|
      && Elems(states[states[k].transitions[t].target].nodes) == Step(n, Elems(states[k].nodes), c)
  {
    var st := states[k];
    var goal, sets, done := Goals(n, st.nodes), SetsOf(states), Readable(st.nodes);
    assert Processed(n, states, k, done);
    forall t: nat | t < |st.transitions| && IsSet(st.transitions[t].cclass, c)
      ensures st.transitions[t].target < |states|
      ensures Elems(states[st.transitions[t].target].nodes) == Step(n, Elems(st.nodes), c) {
      assert EdgeExact(goal, sets, st.transitions[t], done);
    }
    ReadableStep(n, st.nodes, c);
  }

  lemma ReadableStep(n: Node, nodes: seq<Node>, c: Byte)
    requires Program(n) && ListOver(nodes, Leaves(n))
    ensures c in Readable(nodes) <==> Step(n, Elems(nodes), c) != {}
  {
    if ReadBy(nodes, c) {
      var i: nat :| i < |nodes| && Reads(nodes[i], c);
      FollowNotEmpty(n, nodes[i]);
      var q :| q in Follow(n, nodes[i]);
      assert nodes[i] in Elems(nodes);
      assert q in Step(n, Elems(nodes), c);
    }
    if Step(n, Elems(nodes), c) != {} {
      var q :| q in Step(n, Elems(nodes), c);
      var p :| p in Elems(nodes) && Reads(p, c) && q in Follow(n, p);
      var i: nat :| i < |nodes| && nodes[i] == p;
    }
  }

  /** The loop that fills the accept table, visiting the states in the sorted order. */
  method FillAccept(order: seq<State>, states: seq<State>, accept: seq<int>) returns (r: seq<int>)
    requires Buildable(states) && multiset(order) == multiset(states) && |states| <= |accept|
    ensures |r| == |accept| && forall k: nat | k < |states| :: r[k] == states[k].acceptNum
  {
    OrderKeepsIds(order, states);
    r := accept;
    var i := 0;
    while i < |order|
      invariant i <= |order| && |r| == |accept|
      invariant forall j: nat | j < i :: r[order[j].id] == order[j].acceptNum
    {
      r := r[order[i].id := order[i].acceptNum];
      i := i + 1;
    }
    forall k: nat | k < |states| ensures r[k] == states[k].acceptNum {
      assert states[k] in order;
      var j: nat :| j < |order| && order[j] == states[k];
      assert order[j].id == k;
    }
  }

  /** The states of `done` are encoded in the tables. */
  ghost predicate Placed(states: seq<State>, done: set<nat>, base: seq<int>, next: seq<int>, check: seq<int>) {
    && CellsOwned(done, check, next)
    && forall k: nat | k in done && k < |states| :: k < |base| && Encoded(states[k], base[k], check, next)
  }

  method PlaceNext(states: seq<State>, st: State, base: seq<int>, next: seq<int>, check: seq<int>, ghost done: set<nat>)
    returns (base': seq<int>, next': seq<int>, check': seq<int>)
    requires Buildable(states) && st.id < |states| && st == states[st.id] && st.id !in done
    requires Placed(states, done, base, next, check)
    ensures Placed(states, done + {st.id}, base', next', check')
  {
    var b;
    b, next', check' := PlaceState(st, next, check, done);
    base' := Grow(base, st.id, -1)[st.id := b];
    forall k: nat | k in done && k < |states| ensures k < |base'| && Encoded(states[k], base'[k], check', next') {
      EncodedKept(states[k], base[k], st.id, check, next, check', next');
    }
  }

  /** The loop that places the states in the sorted order. */
  method PlaceAll(order: seq<State>, states: seq<State>) returns (base: seq<int>, next: seq<int>, check: seq<int>)
    requires Buildable(states) && multiset(order) == multiset(states)
    ensures |states| <= |base| && forall k: nat | k < |states| :: Encoded(states[k], base[k], check, next)
  {
    OrderKeepsIds(order, states);
    base, next, check := [], [], [];
    ghost var done: set<nat> := {};
    var i := 0;
    while i < |order|
      invariant i <= |order|
      invariant forall k: nat :: k in done <==> exists j: nat | j < i :: order[j].id == k
      invariant Placed(states, done, base, next, check)
    {
      base, next, check := PlaceNext(states, order[i], base, next, check, done);
      done := done + {order[i].id};
      i := i + 1;
    }
    forall k: nat | k < |states| ensures k < |base| && Encoded(states[k], base[k], check, next) {
      assert states[k] in order;
      var j: nat :| j < |order| && order[j] == states[k];
      assert order[j].id == k;
    }
    assert |states| > 0 ==> states[|states| - 1].id < |base|;
  }

  /** The text of a NUL-terminated buffer. */
  function CString(buf: seq<Byte>): (s: seq<Byte>)
    ensures s <= buf && 0 !in s && (0 in buf ==> |s| < |buf| && buf[|s|] == 0)
  {
    if buf == [] || buf[0] == 0 then [] else [buf[0]] + CString(buf[1..])
  }

  /** The outcome of the resumable matcher on chunk `s` after `u`: its result and the number of bytes consumed. */
  ghost function Scan(n: Node, u: seq<Byte>, s: seq<Byte>): (int, nat)
    requires Program(n)
    decreases |s|
  {
    var v := Verdict(Rules(n), u);
    if s == [] || v != -1 then (v, 0)
    else if Reach(n, u + [s[0]]) == {} then (-2, 0)
    else
      var (r, k) := Scan(n, u + [s[0]], s[1..]);
      if r == -2 then (r, 0) else (r, k + 1)
  }

  /** The outcome of a scan whose first `i` bytes were consumed before `rest` was computed. */
  ghost function Shifted(i: nat, rest: (int, nat)): (int, nat) {
    if rest.0 == -2 then (-2, 0) else (rest.0, rest.1 + i)
  }

  /** What is left of a scan once `i` bytes were consumed. */
  ghost function ScanFrom(n: Node, u: seq<Byte>, s: seq<Byte>, i: nat): (int, nat)
    requires Program(n) && i <= |s|
  {
    Shifted(i, Scan(n, u + s[..i], s[i..]))
  }

  lemma ScanStarts(n: Node, u: seq<Byte>, s: seq<Byte>)
    requires Program(n)
    ensures ScanFrom(n, u, s, 0) == Scan(n, u, s) && u + s[..0] == u
  {
    assert u + s[..0] == u && s[0..] == s;
  }

  lemma ScanAdvances(n: Node, u: seq<Byte>, s: seq<Byte>, i: nat)
    requires Program(n) && i <= |s|
    ensures i == |s| || Verdict(Rules(n), u + s[..i]) != -1 ==>
      ScanFrom(n, u, s, i) == Shifted(i, (Verdict(Rules(n), u + s[..i]), 0))
    ensures i < |s| && Verdict(Rules(n), u + s[..i]) == -1 && Reach(n, u + s[..i] + [s[i]]) == {} ==>
      ScanFrom(n, u, s, i) == (-2, 0)
    ensures i < |s| && Verdict(Rules(n), u + s[..i]) == -1 && Reach(n, u + s[..i] + [s[i]]) != {} ==>
      ScanFrom(n, u, s, i) == ScanFrom(n, u, s, i + 1)
    ensures i < |s| ==> u + s[..i + 1] == u + s[..i] + [s[i]]
  {
    if i < |s| {
      assert u + s[..i + 1] == u + s[..i] + [s[i]];
      assert s[i..][1..] == s[i + 1..];
    }
  }

  /** A run over two chunks ends as the run over their concatenation does. */
  lemma {:induction false} ChunksCompose(n: Node, u: seq<Byte>, s: seq<Byte>, t: seq<Byte>)
    requires Program(n)
    ensures Scan(n, u, s + t) ==
            if Scan(n, u, s).0 == -1 then Shifted(|s|, Scan(n, u + s, t)) else Scan(n, u, s)
    decreases |s|
  {
    hide Reach;
    if s == [] {
      assert s + t == t && u + s == u;
    } else {
      assert (s + t)[0] == s[0] && (s + t)[1..] == s[1..] + t;
      assert u + [s[0]] + s[1..] == u + s;
      ChunksCompose(n, u + [s[0]], s[1..], t);
    }
  }

  /** A scan reports the shortest accepted prefix, or that no prefix was accepted before the text died or ended. */
  lemma {:induction false} ScanIsShortest(n: Node, u: seq<Byte>, s: seq<Byte>)
    requires Program(n) && Unshared(n)
    requires Numbered(Rules(n))
    ensures var (r, k) := Scan(n, u, s);
            && k <= |s|
            && (r >= 0 ==> r == Verdict(Rules(n), u + s[..k]) && forall j: nat | j < k :: Verdict(Rules(n), u + s[..j]) == -1)
            && (r < 0 ==> forall j: nat | j <= |s| :: Verdict(Rules(n), u + s[..j]) == -1)
            && (r == -1 ==> k == |s|)
            && (r == -2 ==> !Viable(n, u + s))
            && r >= -2
    decreases |s|
  {
    var f := FirstRule(Rules(n), u);
    assert u + s[..0] == u;
    if s != [] && Verdict(Rules(n), u) == -1 {
      var u' := u + [s[0]];
      forall j: nat | j < |s| ensures u' + s[1..][..j] == u + s[..j + 1] {
        Shuffled(u, s, j);
      }
      assert u' + s[1..] == u + s;
      if Reach(n, u') == {} {
        ReachExtend(n, u', s[1..]);
        DeadIsFinal(n, u + s);
        forall j: nat | j <= |s| ensures Verdict(Rules(n), u + s[..j]) == -1 {
          if j > 0 {
            ReachExtend(n, u', s[1..][..j - 1]);
            DeadIsFinal(n, u' + s[1..][..j - 1]);
          }
        }
      } else {
        ScanIsShortest(n, u', s[1..]);
        ShortestStep(n, u, s);
      }
    }
  }

  lemma Shuffled(u: seq<Byte>, s: seq<Byte>, j: nat)
    requires j < |s|
    ensures u + [s[0]] + s[1..][..j] == u + s[..j + 1]
  {
    assert [s[0]] + s[1..][..j] == s[..j + 1];
    assert u + [s[0]] + s[1..][..j] == u + ([s[0]] + s[1..][..j]);
  }

  lemma ShortestStep(n: Node, u: seq<Byte>, s: seq<Byte>)
    requires Program(n) && s != [] && Verdict(Rules(n), u) == -1 && Reach(n, u + [s[0]]) != {}
    requires var (r, k) := Scan(n, u + [s[0]], s[1..]);
             && k < |s|
             && (r >= 0 ==> r == Verdict(Rules(n), u + [s[0]] + s[1..][..k])
                            && forall j: nat | j < k :: Verdict(Rules(n), u + [s[0]] + s[1..][..j]) == -1)
             && (r < 0 ==> forall j: nat | j < |s| :: Verdict(Rules(n), u + [s[0]] + s[1..][..j]) == -1)
    ensures var (r, k) := Scan(n, u, s);
            && k <= |s|
            && (r >= 0 ==> r == Verdict(Rules(n), u + s[..k]) && forall j: nat | j < k :: Verdict(Rules(n), u + s[..j]) == -1)
            && (r < 0 ==> forall j: nat | j <= |s| :: Verdict(Rules(n), u + s[..j]) == -1)
  {
    hide Reach;
    assert u + s[..0] == u;
    forall j: nat | 0 < j <= |s| ensures u + s[..j] == u + [s[0]] + s[1..][..j - 1] {
      Shuffled(u, s, j - 1);
    }
  }

  lemma DeadMeaning(n: Node, s: seq<Byte>)
    requires Program(n) && Unshared(n)
    ensures Reach(n, s) == {} ==> !Viable(n, s)
    ensures ClassesInhabited(n) ==> (Reach(n, s) == {} <==> !Viable(n, s))
  {
    if ClassesInhabited(n) { LiveIsViable(n, s); }
    if Reach(n, s) == {} { DeadIsFinal(n, s); }
  }

  /** All chunks in one. */
  ghost function Joined(chunks: seq<seq<Byte>>): seq<Byte> {
    if chunks == [] then [] else Joined(chunks[..|chunks| - 1]) + chunks[|chunks| - 1]
  }

  lemma JoinedFirst(chunks: seq<seq<Byte>>)
    requires chunks != []
    ensures Joined(chunks[..1]) == chunks[0]
  {
    assert chunks[..1][..0] == [];
  }

  lemma JoinedNext(chunks: seq<seq<Byte>>, i: nat)
    requires i < |chunks|
    ensures Joined(chunks[..i + 1]) == Joined(chunks[..i]) + chunks[i]
  {
    assert chunks[..i + 1][..i] == chunks[..i];
  }

  lemma {:induction false} JoinedRest(chunks: seq<seq<Byte>>, i: nat)
    requires i <= |chunks|
    ensures Joined(chunks) == Joined(chunks[..i]) + Joined(chunks[i..])
    decreases |chunks|
  {
    if i == |chunks| {
      assert chunks[..i] == chunks;
    } else {
      var k := |chunks| - 1;
      JoinedRest(chunks[..k], i);
      assert chunks[..k][..i] == chunks[..i] && chunks[i..][..k - i] == chunks[..k][i..];
    }
  }

  /** How many bytes a state reads. */
  ghost function Inputs(st: State): int {
    |BitsBelow(st.cclass[..32], 256)|
  }

  class Dfa {
    var base: seq<int>
    var accept: seq<int>
    var next: seq<int>
    var check: seq<int>
    ghost var program: Node
    ghost var states: seq<State>

    constructor ()
      ensures base == [] && accept == [] && next == [] && check == []
    {
      base, accept, next, check := [], [], [], [];
      program, states := Epsilon(0), [];
    }

    /** The tables implement the program. */
    ghost predicate Valid()
      reads this
    {
      && Program(program) && Unshared(program) && Ordered(Rules(program)) && Numbered(Rules(program))
      && Automaton(program, states) && Tabulated(states, base, accept, next, check)
    }

    /** `re_build`: sorts the states and fills the four tables. */
    method Build(all: seq<State>)
      requires Buildable(all) && base == [] && accept == [] && next == [] && check == []
      modifies `base, `accept, `next, `check
      ensures Tabulated(all, base, accept, next, check)
    {
      var order := new State[|all|](i requires 0 <= i < |all| => all[i]);
      var counts := new int[|all|];
      assert order[..] == all;
      var i := 0;
      while i < |all|
        invariant i <= |all| && order[..] == all
        invariant accept == []
        invariant forall k: nat | k < i :: counts[k] == Inputs(order[k])
      {
        counts[i] := Count(order[i].cclass[..32]);
        i := i + 1;
      }
      SortByCount(order, counts, Inputs);
      accept := Grow(accept, |all|, -1)[|all| := -1];
      accept := FillAccept(order[..], all, accept);
      base, next, check := PlaceAll(order[..], all);
    }

    /** `compile`: from expression tree to tables. The tables of a new object are empty. */
    method Compile(n: Node)
      requires Program(n) && Unshared(n) && Ordered(Rules(n)) && Numbered(Rules(n))
      requires base == [] && accept == [] && next == [] && check == []
      modifies this
      ensures Valid() && program == n
      ensures |states| <= Pow2(|Leaves(n)|)
    {
      UnsharedUnique(n);
      var table := new FollowTable(Leaves(n));
      table.Compute(n);
      forall p ensures ListOver(Lookup(table.follow, p), Leaves(n)) && Elems(Lookup(table.follow, p)) == Follow(n, p) {
      }
      var all := Construct(n, table.follow);
      AutomatonBuildable(n, all);
      Build(all);
      program, states := n, all;
    }

    /** State `k` is the one `s` leads to. */
    ghost predicate At(k: int, s: seq<Byte>)
      reads this
    {
      0 <= k < |states| && Elems(states[k].nodes) == Reach(program, s)
    }

    /** The accept table of every reachable state gives the verdict on the text read so far. */
    lemma AcceptAt(k: int, s: seq<Byte>)
      requires Valid() && At(k, s)
      ensures k < |accept| && accept[k] == Verdict(Rules(program), s) >= -1
    {
      var f := FirstRule(Rules(program), s);
      AcceptIsVerdict(program, s, states[k].nodes);
    }

    /** One table lookup follows the automaton, and stays inside the tables. */
    lemma LookupAt(k: int, s: seq<Byte>, c: Byte)
      requires Valid() && At(k, s)
      ensures k < |base| && 0 <= base[k] && base[k] + c < |check|
      ensures check[base[k] + c] == k <==> Reach(program, s + [c]) != {}
      ensures check[base[k] + c] == k ==> base[k] + c < |next| && At(next[base[k] + c], s + [c])
    {
      hide Automaton, IsSet;
      var st := states[k];
      AutomatonStep(program, states, k, c);
      assert (s + [c])[..|s + [c]| - 1] == s;
      assert Encoded(st, base[k], check, next);
      if IsSet(st.cclass, c) {
        assert HasEdge(st, c);
        var t: nat :| t < |st.transitions| && IsSet(st.transitions[t].cclass, c);
        assert next[base[k] + c] == st.transitions[t].target;
      }
    }

    /** `match` on a NUL-terminated string: the number of the first pattern it matches, -1 if there is none. */
    method Match(buf: seq<Byte>) returns (r: int)
      requires Valid() && 0 in buf
      ensures r == Verdict(Rules(program), CString(buf))
    {
      var s := 0;
      var i := 0;
      ghost var text := CString(buf);
      assert text[..0] == [];
      while buf[i] != 0
        invariant i <= |text|
        invariant At(s, text[..i])
        decreases |text| - i
      {
        var c := buf[i];
        assert text[..i + 1] == text[..i] + [c];
        LookupAt(s, text[..i], c);
        var t := base[s] + c;
        if check[t] != s {
          assert text == text[..i + 1] + text[i + 1..];
          ReachExtend(program, text[..i + 1], text[i + 1..]);
          DeadIsFinal(program, text);
          return -1;
        }
        s := next[t];
        i := i + 1;
      }
      assert text[..i] == text;
      AcceptAt(s, text);
      r := accept[s];
    }

    /** `match` on a counted string: -2 as soon as no state is left. */
    method MatchCounted(str: seq<Byte>) returns (r: int)
      requires Valid()
      ensures r == if Reach(program, str) == {} then -2 else Verdict(Rules(program), str)
      ensures Reach(program, str) == {} ==> !Viable(program, str)
      ensures ClassesInhabited(program) ==> (Reach(program, str) == {} <==> !Viable(program, str))
    {
      r := RunCounted(str);
      DeadMeaning(program, str);
    }

    method RunCounted(str: seq<Byte>) returns (r: int)
      requires Valid()
      ensures r == if Reach(program, str) == {} then -2 else Verdict(Rules(program), str)
    {
      var s := 0;
      var i := 0;
      assert str[..0] == [];
      while i < |str|
        invariant i <= |str|
        invariant At(s, str[..i])
      {
        assert str[..i + 1] == str[..i] + [str[i]];
        LookupAt(s, str[..i], str[i]);
        var t := base[s] + str[i];
        if check[t] != s {
          assert str == str[..i + 1] + str[i + 1..];
          ReachExtend(program, str[..i + 1], str[i + 1..]);
          return -2;
        }
        s := next[t];
        i := i + 1;
      }
      assert str[..i] == str;
      AcceptAt(s, str);
      r := accept[s];
      assert states[s].nodes[0] in Elems(states[s].nodes);
    }

    /** What the resumable matcher reports and leaves after `u` and then `str`. */
    ghost predicate Resumed(u: seq<Byte>, str: seq<Byte>, r: int, consumed: nat, state': int)
      requires Valid()
      reads this
    {
      && (r, consumed) == Scan(program, u, str) && consumed <= |str|
      && if r == -2 then state' == 0 else At(state', u + str[..consumed])
    }

    /** A text leads to one state only. */
    lemma OneState(j: int, k: int, s: seq<Byte>)
      requires Valid() && At(j, s) && At(k, s)
      ensures j == k
    {
      hide Tabulated, Reach;
      assert Formed(program, states);
    }

    /** Two runs over the same text report the same and leave the same state. */
    lemma ResumedIsUnique(u: seq<Byte>, str: seq<Byte>, r: int, consumed: nat, j: int, r': int, consumed': nat, k: int)
      requires Valid() && Resumed(u, str, r, consumed, j) && Resumed(u, str, r', consumed', k)
      ensures r == r' && consumed == consumed' && j == k
    {
      if r != -2 { OneState(j, k, u + str[..consumed]); }
    }

    /** A run that has not decided anything and the run that goes on from it make up one run. */
    lemma ResumedOn(u: seq<Byte>, s: seq<Byte>, j: int, t: seq<Byte>, r: int, consumed: nat, k: int)
      requires Valid() && Resumed(u, s, -1, |s|, j) && Resumed(u + s, t, r, consumed, k)
      ensures Resumed(u, s + t, r, if r == -2 then 0 else |s| + consumed, k)
    {
      hide Automaton, Tabulated, Unshared, Ordered, Numbered, Reach, Scan;
      ChunksCompose(program, u, s, t);
      assert (s + t)[..|s| + consumed] == s + t[..consumed];
      assert u + s + t[..consumed] == u + (s + t[..consumed]);
    }

    /** A run that has decided does not look at what follows. */
    lemma ResumedEnough(u: seq<Byte>, s: seq<Byte>, t: seq<Byte>, r: int, consumed: nat, k: int)
      requires Valid() && Resumed(u, s, r, consumed, k) && r != -1
      ensures Resumed(u, s + t, r, consumed, k)
    {
      hide Automaton, Tabulated, Unshared, Ordered, Numbered, Reach, Scan;
      ChunksCompose(program, u, s, t);
      assert (s + t)[..consumed] == s[..consumed];
    }

    lemma UndecidedIsWhole(u: seq<Byte>, s: seq<Byte>, consumed: nat, k: int)
      requires Valid() && Resumed(u, s, -1, consumed, k)
      ensures consumed == |s| && At(k, u + s)
    {
      ScanIsShortest(program, u, s);
      assert s[..|s|] == s;
    }

    /** Chunk after chunk until the matcher decides: the same as one run over all of them at once. */
    method ResumeChunks(chunks: seq<seq<Byte>>, state: int, ghost u: seq<Byte>) returns (r: int, consumed: nat, state': int)
      requires Valid() && At(state, u) && chunks != []
      ensures Resumed(u, Joined(chunks), r, consumed, state')
    {
      hide Valid, At, Resumed;
      r, consumed, state' := Resume(chunks[0], state, u);
      ghost var text := chunks[0];
      JoinedFirst(chunks);
      var i := 1;
      while i < |chunks| && r == -1
        invariant 1 <= i <= |chunks| && text == Joined(chunks[..i]) && Resumed(u, text, r, consumed, state')
      {
        JoinedNext(chunks, i);
        UndecidedIsWhole(u, text, consumed, state');
        var n, k;
        r, n, k := Resume(chunks[i], state', u + text);
        ResumedOn(u, text, state', chunks[i], r, n, k);
        consumed, state' := if r == -2 then 0 else consumed + n, k;
        text := text + chunks[i];
        i := i + 1;
      }
      JoinedRest(chunks, i);
      if i < |chunks| {
        ResumedEnough(u, text, Joined(chunks[i..]), r, consumed, state');
      } else {
        assert chunks[..i] == chunks;
      }
    }

    /** The resumable `match`: continues in `state` and reports result, bytes consumed and new state. */
    method Resume(str: seq<Byte>, state: int, ghost u: seq<Byte>) returns (r: int, consumed: nat, state': int)
      requires Valid() && At(state, u)
      ensures Resumed(u, str, r, consumed, state')
    {
      hide Automaton, Tabulated, Unshared, Ordered, Numbered, Reach;
      var i := 0;
      state' := state;
      ScanStarts(program, u, str);
      while i < |str|
        invariant i <= |str| && At(state', u + str[..i])
        invariant Scan(program, u, str) == ScanFrom(program, u, str, i)
      {
        ScanAdvances(program, u, str, i);
        AcceptAt(state', u + str[..i]);
        if accept[state'] != -1 {
          return accept[state'], i, state';
        }
        LookupAt(state', u + str[..i], str[i]);
        var t := base[state'] + str[i];
        if check[t] != state' {
          return -2, 0, 0;
        }
        state' := next[t];
        i := i + 1;
      }
      ScanAdvances(program, u, str, i);
      AcceptAt(state', u + str[..i]);
      r, consumed := accept[state'], i;
    }
  }
}
