/** The compressed base/check/next/accept tables (`re_build`). */
module TransitionTables {
  import opened Bitops
  import opened RegexTree
  import opened SubsetConstruction

  /** Growing access to a dynamic array: index `i` exists afterwards, new cells hold the default. */
  function Grow(d: seq<int>, i: nat, default: int): (r: seq<int>)
    ensures |r| == if i < |d| then |d| else i + 1
    ensures d <= r && forall k: nat | |d| <= k < |r| :: r[k] == default
  {
    if i < |d| then d else d + seq(i + 1 - |d|, _ => default)
  }

  /** The bytes of a character class counted by `bitops_count`. */
  ghost function ByteSet(v: CharClass): set<Byte> {
    set c: Byte | 0 <= c < 256 && IsSet(v, c)
  }

  /** State `k` is encoded: its base row names it on exactly the bytes of its class and leads to its targets. */
  ghost predicate Encoded(st: State, b: int, check: seq<int>, next: seq<int>) {
    && 0 <= b && b + 256 <= |check|
    && (forall c: Byte :: check[b + c] == st.id <==> IsSet(st.cclass, c))
    && (forall t: nat, c: Byte | t < |st.transitions| && IsSet(st.transitions[t].cclass, c) ::
          b + c < |next| && next[b + c] == st.transitions[t].target)
  }

  /** What re_build relies on: edges only on class bytes, never two edges for one byte, ids equal to positions. */
  ghost predicate Buildable(states: seq<State>) {
    forall k: nat | k < |states| :: states[k].id == k && WellEdged(states[k])
  }

  ghost predicate WellEdged(st: State) {
    && (forall t: nat, c: Byte | t < |st.transitions| && IsSet(st.transitions[t].cclass, c) :: IsSet(st.cclass, c))
    && (forall c: Byte | IsSet(st.cclass, c) :: HasEdge(st, c))
    && (forall t: nat, u: nat, c: Byte | t < u < |st.transitions| ::
          !(IsSet(st.transitions[t].cclass, c) && IsSet(st.transitions[u].cclass, c)))
  }

  /** Every cell of `check` that is in use names a state of `done`, and `next` reaches every such cell. */
  ghost predicate CellsOwned(done: set<nat>, check: seq<int>, next: seq<int>) {
    forall k: nat | k < |check| && check[k] != -1 :: check[k] >= 0 && check[k] in done && k < |next|
  }

  ghost predicate Descending(a: seq<int>) {
    forall x: nat, y: nat | x < y < |a| :: a[x] >= a[y]
  }

  /** A sequence without its entry `j`. */
  ghost function Rest<T>(a: seq<T>, j: nat): seq<T>
    requires j < |a|
  {
    a[..j] + a[j + 1..]
  }

  /** Copying entry `j - 1` to `j` moves the hole and leaves the rest alone. */
  lemma HoleMoves<T>(a: seq<T>, j: nat)
    requires 0 < j < |a|
    ensures Rest(a[j := a[j - 1]], j - 1) == Rest(a, j)
  {
  }

  lemma HoleFilled<T>(a: seq<T>, b: seq<T>, j: nat, i: nat, s: T)
    requires |a| == |b| && j < |b| && i < |a| && b[j] == s == a[i] && Rest(a, i) == Rest(b, j)
    ensures multiset(a) == multiset(b)
  {
    assert a == a[..i] + [s] + a[i + 1..];
    assert b == b[..j] + [s] + b[j + 1..];
    assert multiset(a) == multiset(Rest(a, i)) + multiset{s};
    assert multiset(b) == multiset(Rest(b, j)) + multiset{s};
  }

  lemma InsertedDescending(a: seq<int>, j: nat)
    requires j < |a| && Descending(Rest(a, j))
    requires forall y: nat | j < y < |a| :: a[y] < a[j]
    requires j > 0 ==> a[j - 1] >= a[j]
    ensures Descending(a)
  {
    var r := Rest(a, j);
    forall x: nat, y: nat | x < y < |a| ensures a[x] >= a[y] {
      if x != j && y != j {
        assert r[if x < j then x else x - 1] >= r[if y < j then y else y - 1];
      } else if y == j && x < j - 1 {
        assert r[x] >= r[j - 1];
      }
    }
  }

  /** The insertion sort of the states by descending number of input bytes. */
  method SortByCount<T>(states: array<T>, counts: array<int>, ghost weight: T -> int)
    requires states.Length == counts.Length && states as object != counts
    requires forall k: nat | k < counts.Length :: counts[k] == weight(states[k])
    modifies states, counts
    ensures multiset(states[..]) == old(multiset(states[..]))
    ensures Descending(counts[..]) && forall k: nat | k < counts.Length :: counts[k] == weight(states[k])
  {
    var i := 1;
    while i < states.Length
      invariant 1 <= i && (i <= states.Length || states.Length == 0)
      invariant multiset(states[..]) == old(multiset(states[..]))
      invariant i <= counts.Length ==> Descending(counts[..i])
      invariant forall k: nat | k < counts.Length :: counts[k] == weight(states[k])
    {
      InsertState(states, counts, i, weight);
      i := i + 1;
    }
    assert counts.Length > 0 ==> counts[..i] == counts[..];
  }

  /** Moves entry `i` left past every smaller count. */
  method InsertState<T>(states: array<T>, counts: array<int>, i: nat, ghost weight: T -> int)
    requires states.Length == counts.Length && i < counts.Length && states as object != counts
    requires Descending(counts[..i]) && forall k: nat | k < counts.Length :: counts[k] == weight(states[k])
    modifies states, counts
    ensures multiset(states[..]) == old(multiset(states[..]))
    ensures Descending(counts[..i + 1]) && forall k: nat | k < counts.Length :: counts[k] == weight(states[k])
  {
    hide Rest, Descending;
    var j := i;
    var s, c := states[j], counts[j];
    ghost var restS, restC := Rest(states[..], i), Rest(counts[..i + 1], i);
    RestOfPrefix(counts[..], i);
    while j > 0 && counts[j - 1] < c
      invariant 0 <= j <= i
      invariant Rest(states[..], j) == restS && Rest(counts[..i + 1], j) == restC
      invariant forall y: nat | j < y <= i :: counts[y] < c
      invariant forall k: nat | k < counts.Length && k != j :: counts[k] == weight(states[k])
    {
      HoleMoves(states[..], j);
      HoleMoves(counts[..i + 1], j);
      CopyLeft(states, counts, j, i);
      j := j - 1;
    }
    PutBack(states, counts, j, i, s, c);
    HoleFilled(old(states[..]), states[..], j, i, s);
    InsertedDescending(counts[..i + 1], j);
  }

  method CopyLeft<T>(states: array<T>, counts: array<int>, j: nat, i: nat)
    requires states.Length == counts.Length && 0 < j <= i < counts.Length
    modifies states, counts
    ensures states[..] == old(states[..][j := states[j - 1]])
    ensures counts[..i + 1] == old(counts[..i + 1][j := counts[j - 1]])
    ensures forall k: nat | k < counts.Length && k != j :: counts[k] == old(counts[k]) && states[k] == old(states[k])
    ensures counts[j] == old(counts[j - 1]) && states[j] == old(states[j - 1])
  {
    states[j] := states[j - 1];
    counts[j] := counts[j - 1];
  }

  method PutBack<T>(states: array<T>, counts: array<int>, j: nat, i: nat, s: T, c: int)
    requires states.Length == counts.Length && j <= i < counts.Length && states as object != counts
    modifies states, counts
    ensures states[j] == s && counts[j] == c && Rest(states[..], j) == old(Rest(states[..], j))
    ensures Rest(counts[..i + 1], j) == old(Rest(counts[..i + 1], j))
    ensures forall k: nat | k < counts.Length && k != j :: counts[k] == old(counts[k]) && states[k] == old(states[k])
  {
    states[j] := s;
    counts[j] := c;
  }

  lemma RestOfPrefix<T>(a: seq<T>, i: nat)
    requires i < |a|
    ensures Rest(a[..i + 1], i) == a[..i]
  {
  }

  /** Every cell the row of `v` at base `b` needs is unused. */
  ghost predicate RowFree(v: CharClass, b: nat, check: seq<int>) {
    forall c: Byte | IsSet(v, c) && b + c < |check| :: check[b + c] == -1
  }

  ghost predicate OnlyGrown(check: seq<int>, r: seq<int>) {
    check <= r && forall k: nat | |check| <= k < |r| :: r[k] == -1
  }

  /** Probes one base: stops at the first used cell. The probes grow the table. */
  method TryBase(v: CharClass, b: nat, check: seq<int>) returns (ok: bool, r: seq<int>)
    ensures OnlyGrown(check, r)
    ensures ok <==> RowFree(v, b, r)
    ensures b >= |check| ==> ok
  {
    r := check;
    var input := NextByte(v, -1);
    while input != -1
      invariant input == -1 || (0 <= input < 256 && IsSet(v, input))
      invariant OnlyGrown(check, r)
      invariant forall c: Byte | IsSet(v, c) && (input == -1 || c < input) && b + c < |r| :: r[b + c] == -1
      decreases if input == -1 then 0 else 257 - input
    {
      r := Grow(r, b + input, -1);
      if r[b + input] != -1 {
        return false, r;
      }
      input := NextByte(v, input);
    }
    ok := true;
  }

  /** The first base at which the row fits. */
  method FindBase(v: CharClass, check: seq<int>) returns (b: nat, r: seq<int>)
    ensures OnlyGrown(check, r) && RowFree(v, b, r)
    ensures forall a: nat | a < b :: !RowFree(v, a, check)
  {
    b, r := 0, check;
    var ok := false;
    while true
      invariant OnlyGrown(check, r) && b <= |check|
      invariant forall a: nat | a < b :: !RowFree(v, a, check)
      decreases |check| - b
    {
      ok, r := TryBase(v, b, r);
      if ok { return; }
      ghost var c: Byte :| IsSet(v, c) && b + c < |r| && r[b + c] != -1;
      assert check[b + c] != -1;
      b := b + 1;
    }
  }

  /** Cell `k` of the row at base `b` has been written. */
  ghost predicate Written(w: map<Byte, nat>, b: nat, k: nat) {
    b <= k < b + 256 && k - b in w
  }

  /** The tables after the targets in `w` were written into the row at base `b`. */
  ghost predicate RowIs(w: map<Byte, nat>, id: nat, b: nat, check: seq<int>, next: seq<int>,
                        check': seq<int>, next': seq<int>) {
    && |check'| == |check| && |next'| == |next|
    && (forall k: nat | k < |check| :: check'[k] == if Written(w, b, k) then id else check[k])
    && (forall k: nat | k < |next| :: next'[k] == if Written(w, b, k) then w[k - b] else next[k])
  }

  ghost function EdgeTargets(bytes: set<Byte>, target: nat): (w: map<Byte, nat>)
    ensures w.Keys == bytes && forall c: Byte | c in w :: w[c] == target
  {
    map c: Byte | c in bytes :: target
  }

  /** The loop over the bytes of one edge. */
  method FillEdge(t: Transition, id: nat, b: nat, check: seq<int>, next: seq<int>) returns (check': seq<int>, next': seq<int>)
    requires b + 256 <= |check| && b + 256 <= |next|
    ensures RowIs(EdgeTargets(ByteSet(t.cclass), t.target), id, b, check, next, check', next')
  {
    check', next' := check, next;
    ghost var w: map<Byte, nat> := map[];
    var input := NextByte(t.cclass, -1);
    while input != -1
      invariant input == -1 || (0 <= input < 256 && IsSet(t.cclass, input))
      invariant RowIs(w, id, b, check, next, check', next')
      invariant forall c: Byte :: c in w <==> IsSet(t.cclass, c) && (input == -1 || c < input)
      invariant forall c: Byte | c in w :: w[c] == t.target
      decreases if input == -1 then 0 else 257 - input
    {
      check' := check'[b + input := id];
      next' := next'[b + input := t.target];
      w := w[input := t.target];
      input := NextByte(t.cclass, input);
    }
    assert w == EdgeTargets(ByteSet(t.cclass), t.target);
  }

  ghost function EdgeBytes(ts: seq<Transition>): (es: seq<set<Byte>>)
    ensures |es| == |ts| && forall t: nat | t < |ts| :: es[t] == ByteSet(ts[t].cclass)
  {
    seq(|ts|, t requires 0 <= t < |ts| => ByteSet(ts[t].cclass))
  }

  /** The targets recorded in the first `k` edges, of which `es` gives the bytes. */
  ghost function RowTargets(es: seq<set<Byte>>, ts: seq<Transition>, k: nat): map<Byte, nat>
    requires k <= |ts| == |es|
  {
    if k == 0 then map[] else RowTargets(es, ts, k - 1) + EdgeTargets(es[k - 1], ts[k - 1].target)
  }

  lemma RowTwice(w: map<Byte, nat>, v: map<Byte, nat>, id: nat, b: nat, c0: seq<int>, n0: seq<int>,
                 c1: seq<int>, n1: seq<int>, c2: seq<int>, n2: seq<int>)
    requires RowIs(w, id, b, c0, n0, c1, n1) && RowIs(v, id, b, c1, n1, c2, n2)
    ensures RowIs(w + v, id, b, c0, n0, c2, n2)
  {
  }

  /** Edges never share a byte, so each byte of an edge is recorded with the target of that edge. */
  lemma {:induction false} RowTargetsSpec(es: seq<set<Byte>>, ts: seq<Transition>, k: nat, c: Byte)
    requires k <= |ts| == |es|
    requires forall t: nat, u: nat | t < u < |ts| :: es[t] !! es[u]
    ensures c in RowTargets(es, ts, k) <==> exists t: nat | t < k :: c in es[t]
    ensures forall t: nat | t < k && c in es[t] ::
      c in RowTargets(es, ts, k) && RowTargets(es, ts, k)[c] == ts[t].target
  {
    if k > 0 {
      RowTargetsSpec(es, ts, k - 1, c);
    }
  }

  method FillNextEdge(ts: seq<Transition>, t: nat, id: nat, b: nat, check: seq<int>, next: seq<int>,
                      ghost check0: seq<int>, ghost next0: seq<int>)
    returns (check': seq<int>, next': seq<int>)
    requires t < |ts| && b + 256 <= |check| && b + 256 <= |next|
    requires RowIs(RowTargets(EdgeBytes(ts), ts, t), id, b, check0, next0, check, next)
    ensures RowIs(RowTargets(EdgeBytes(ts), ts, t + 1), id, b, check0, next0, check', next')
  {
    check', next' := FillEdge(ts[t], id, b, check, next);
    RowTwice(RowTargets(EdgeBytes(ts), ts, t), EdgeTargets(ByteSet(ts[t].cclass), ts[t].target),
             id, b, check0, next0, check, next, check', next');
  }

  /** The loop over the edges of one state. */
  method FillEdges(ts: seq<Transition>, id: nat, b: nat, check: seq<int>, next: seq<int>)
    returns (check': seq<int>, next': seq<int>)
    requires b + 256 <= |check| && b + 256 <= |next|
    ensures RowIs(RowTargets(EdgeBytes(ts), ts, |ts|), id, b, check, next, check', next')
  {
    check', next' := check, next;
    var t := 0;
    while t < |ts|
      invariant t <= |ts|
      invariant RowIs(RowTargets(EdgeBytes(ts), ts, t), id, b, check, next, check', next')
    {
      check', next' := FillNextEdge(ts, t, id, b, check', next', check, next);
      t := t + 1;
    }
  }

  method FillRow(st: State, b: nat, check: seq<int>, next: seq<int>) returns (check': seq<int>, next': seq<int>)
    requires b + 256 <= |check| && b + 256 <= |next| && WellEdged(st)
    requires forall k: nat | k < |check| :: check[k] != st.id
    ensures |check'| == |check| && |next'| == |next| && Encoded(st, b, check', next')
    ensures forall k: nat | k < |check| ::
      check'[k] == if b <= k < b + 256 && IsSet(st.cclass, k - b) then st.id else check[k]
    ensures forall k: nat | k < |next| && !(b <= k < b + 256 && IsSet(st.cclass, k - b)) :: next'[k] == next[k]
  {
    check', next' := FillEdges(st.transitions, st.id, b, check, next);
    ghost var w := RowTargets(EdgeBytes(st.transitions), st.transitions, |st.transitions|);
    RowOfState(st);
    EncodedRow(st, w, b, check, next, check', next');
  }

  lemma RowOfState(st: State)
    requires WellEdged(st)
    ensures
      var w := RowTargets(EdgeBytes(st.transitions), st.transitions, |st.transitions|);
      && (forall c: Byte :: c in w <==> IsSet(st.cclass, c))
      && (forall c: Byte, u: nat | u < |st.transitions| && IsSet(st.transitions[u].cclass, c) ::
            c in w && w[c] == st.transitions[u].target)
  {
    var ts := st.transitions;
    var es := EdgeBytes(ts);
    var w := RowTargets(es, ts, |ts|);
    forall t: nat, u: nat | t < u < |ts| ensures es[t] !! es[u] {
      forall c: Byte ensures !(c in es[t] && c in es[u]) {
        assert c in es[t] ==> IsSet(ts[t].cclass, c);
      }
    }
    forall c: Byte ensures c in w <==> IsSet(st.cclass, c) {
      RowTargetsSpec(es, ts, |ts|, c);
      if IsSet(st.cclass, c) {
        assert HasEdge(st, c);
        var t: nat :| t < |ts| && IsSet(ts[t].cclass, c);
        assert c in es[t];
      }
    }
    forall c: Byte, u: nat | u < |ts| && IsSet(ts[u].cclass, c) ensures c in w && w[c] == ts[u].target {
      RowTargetsSpec(es, ts, |ts|, c);
      assert c in es[u];
    }
  }

  lemma EncodedRow(st: State, w: map<Byte, nat>, b: nat, check: seq<int>, next: seq<int>,
                   check': seq<int>, next': seq<int>)
    requires RowIs(w, st.id, b, check, next, check', next') && b + 256 <= |check| && b + 256 <= |next|
    requires forall c: Byte :: c in w <==> IsSet(st.cclass, c)
    requires forall c: Byte, u: nat | u < |st.transitions| && IsSet(st.transitions[u].cclass, c) ::
      c in w && w[c] == st.transitions[u].target
    requires forall k: nat | k < |check| :: check[k] != st.id
    ensures Encoded(st, b, check', next')
    ensures forall k: nat | k < |check| ::
      check'[k] == if b <= k < b + 256 && IsSet(st.cclass, k - b) then st.id else check[k]
    ensures forall k: nat | k < |next| && !(b <= k < b + 256 && IsSet(st.cclass, k - b)) :: next'[k] == next[k]
  {
    forall c: Byte ensures check'[b + c] == st.id <==> IsSet(st.cclass, c) {
      assert Written(w, b, b + c) <==> c in w;
    }
    forall u: nat, c: Byte | u < |st.transitions| && IsSet(st.transitions[u].cclass, c)
      ensures b + c < |next'| && next'[b + c] == st.transitions[u].target {
      assert Written(w, b, b + c);
    }
  }
}
