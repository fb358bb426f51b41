/** The repetition operators `+`, `{s,}` and `{s,e}` of the pattern parser, as expansions of expression trees. */
module Repetition {
  import opened RegexTree
  import opened Glushkov
  import opened Options

  /** `re_dup_node`: a copy whose nodes are numbered from `id` on. */
  function Dup(n: Node, id: nat): (r: (Node, nat))
    ensures r.1 > id
  {
    match n
    case End(_, a) => (End(id, a), id + 1)
    case Epsilon(_) => (Epsilon(id), id + 1)
    case CClass(_, c) => (CClass(id, c), id + 1)
    case Cat(_, l, r) =>
      var (l', i) := Dup(l, id + 1);
      var (r', k) := Dup(r, i);
      (Cat(id, l', r'), k)
    case Or(_, l, r) =>
      var (l', i) := Dup(l, id + 1);
      var (r', k) := Dup(r, i);
      (Or(id, l', r'), k)
    case Star(_, c) => var (c', i) := Dup(c, id + 1); (Star(id, c'), i)
    case Paren(_, c) => var (c', i) := Dup(c, id + 1); (Paren(id, c'), i)
  }

  ghost predicate IdsWithin(n: Node, lo: nat, hi: nat) {
    forall p | p in Leaves(n) :: lo <= p.id < hi
  }

  lemma PairUnshared(l: Node, r: Node, id: nat, mid: nat, hi: nat)
    requires id < mid < hi && Unshared(l) && Unshared(r)
    requires IdsWithin(l, id + 1, mid) && IdsWithin(r, mid, hi)
    ensures Unshared(Cat(id, l, r)) && IdsWithin(Cat(id, l, r), id, hi)
    ensures Unshared(Or(id, l, r)) && IdsWithin(Or(id, l, r), id, hi)
  {
  }

  /** A copy shares no leaf with anything numbered before it, and with itself. */
  lemma {:induction false} DupUnshared(n: Node, id: nat)
    ensures Unshared(Dup(n, id).0) && IdsWithin(Dup(n, id).0, id, Dup(n, id).1)
    ensures Body(Dup(n, id).0) == Body(n)
    decreases n
  {
    hide Unshared, Leaves, IdsWithin;
    match n
    case End(_, _) => LeafUnshared(Dup(n, id).0);
    case Epsilon(_) => LeafUnshared(Dup(n, id).0);
    case CClass(_, _) => LeafUnshared(Dup(n, id).0);
    case Cat(_, l, r) =>
      var (l', i) := Dup(l, id + 1);
      var (r', k) := Dup(r, i);
      DupUnshared(l, id + 1);
      DupUnshared(r, i);
      PairUnshared(l', r', id, i, k);
    case Or(_, l, r) =>
      var (l', i) := Dup(l, id + 1);
      var (r', k) := Dup(r, i);
      DupUnshared(l, id + 1);
      DupUnshared(r, i);
      PairUnshared(l', r', id, i, k);
    case Star(_, c) =>
      DupUnshared(c, id + 1);
      ChildUnshared(Dup(c, id + 1).0, id, Dup(c, id + 1).1);
    case Paren(_, c) =>
      DupUnshared(c, id + 1);
      ChildUnshared(Dup(c, id + 1).0, id, Dup(c, id + 1).1);
  }

  lemma LeafUnshared(n: Node)
    requires n.End? || n.Epsilon? || n.CClass?
    ensures Unshared(n) && IdsWithin(n, n.id, n.id + 1)
  {
  }

  lemma ChildUnshared(c: Node, id: nat, hi: nat)
    requires Unshared(c) && IdsWithin(c, id + 1, hi)
    ensures Unshared(Star(id, c)) && IdsWithin(Star(id, c), id, hi)
    ensures Unshared(Paren(id, c)) && IdsWithin(Paren(id, c), id, hi)
  {
  }

  /** A copy denotes the same strings. */
  lemma {:induction false} DupMeaning(n: Node, id: nat, s: seq<Byte>)
    ensures Matches(Dup(n, id).0, s) <==> Matches(n, s)
    decreases n, |s|
  {
    match n
    case End(_, _) =>
    case Epsilon(_) =>
    case CClass(_, _) =>
    case Cat(_, l, r) =>
      forall k: nat | k <= |s| ensures Matches(Dup(n, id).0.left, s[..k]) <==> Matches(l, s[..k])
                               ensures Matches(Dup(n, id).0.right, s[k..]) <==> Matches(r, s[k..]) {
        DupMeaning(l, id + 1, s[..k]);
        DupMeaning(r, Dup(l, id + 1).1, s[k..]);
      }
    case Or(_, l, r) => DupMeaning(l, id + 1, s); DupMeaning(r, Dup(l, id + 1).1, s);
    case Star(_, c) =>
      forall k: nat | 0 < k <= |s| ensures Matches(Dup(n, id).0.child, s[..k]) <==> Matches(c, s[..k])
                                   ensures Matches(Dup(n, id).0, s[k..]) <==> Matches(n, s[k..]) {
        DupMeaning(c, id + 1, s[..k]);
        DupMeaning(n, id, s[k..]);
      }
    case Paren(_, c) => DupMeaning(c, id + 1, s);
  }

  type Language = iset<seq<Byte>>

  ghost function Lang(n: Node): Language {
    iset s: seq<Byte> | Matches(n, s)
  }

  ghost function Conc(a: Language, b: Language): Language {
    iset u, v | u in a && v in b :: u + v
  }

  /** The concatenations of `j` strings of `a`. */
  ghost function Power(a: Language, j: nat): Language {
    if j == 0 then iset{[]} else Conc(Power(a, j - 1), a)
  }

  ghost predicate InSomePower(a: Language, low: nat, s: seq<Byte>) {
    exists j: nat | low <= j :: s in Power(a, j)
  }

  /** The concatenations of at least `low` strings of `a`. */
  ghost function AtLeast(a: Language, low: nat): Language {
    iset s: seq<Byte> | InSomePower(a, low, s)
  }

  lemma ConcIn(a: Language, b: Language, u: seq<Byte>, v: seq<Byte>)
    requires u in a && v in b
    ensures u + v in Conc(a, b)
  {
  }

  lemma ConcSplit(a: Language, b: Language, s: seq<Byte>) returns (k: nat)
    requires s in Conc(a, b)
    ensures k <= |s| && s[..k] in a && s[k..] in b
  {
    var u, v :| u in a && v in b && u + v == s;
    k := |u|;
    assert s[..k] == u && s[k..] == v;
  }

  lemma ConcJoin(a: Language, b: Language, s: seq<Byte>, k: nat)
    requires k <= |s| && s[..k] in a && s[k..] in b
    ensures s in Conc(a, b)
  {
    ConcIn(a, b, s[..k], s[k..]);
    assert s[..k] + s[k..] == s;
  }

  lemma ConcAssoc(a: Language, b: Language, c: Language)
    ensures Conc(Conc(a, b), c) == Conc(a, Conc(b, c))
  {
    forall s: seq<Byte> ensures s in Conc(Conc(a, b), c) <==> s in Conc(a, Conc(b, c)) {
      if s in Conc(Conc(a, b), c) {
        var uv, w :| uv in Conc(a, b) && w in c && uv + w == s;
        var u, v :| u in a && v in b && u + v == uv;
        assert v + w in Conc(b, c) && u + (v + w) == s;
      }
      if s in Conc(a, Conc(b, c)) {
        var u, vw :| u in a && vw in Conc(b, c) && u + vw == s;
        var v, w :| v in b && w in c && v + w == vw;
        assert u + v in Conc(a, b) && u + v + w == s;
      }
    }
  }

  lemma ConcUnit(a: Language)
    ensures Conc(iset{[]}, a) == a && Conc(a, iset{[]}) == a
  {
    hide Conc;
    var e: seq<Byte> := [];
    forall s: seq<Byte> ensures s in Conc(iset{e}, a) <==> s in a {
      assert e + s == s;
      if s in a { ConcIn(iset{e}, a, e, s); }
      if s in Conc(iset{e}, a) { var k := ConcSplit(iset{e}, a, s); assert k == 0 && s[0..] == s; }
    }
    forall s: seq<Byte> ensures s in Conc(a, iset{e}) <==> s in a {
      assert s + e == s;
      if s in a { ConcIn(a, iset{e}, s, e); }
      if s in Conc(a, iset{e}) { var k := ConcSplit(a, iset{e}, s); assert k == |s| && s[..k] == s; }
    }
  }

  lemma PowerStep(a: Language, i: nat)
    ensures Power(a, i + 1) == Conc(Power(a, i), a)
    ensures Power(a, 0) == iset{[]}
  {
  }

  lemma {:induction false} PowerAdd(a: Language, i: nat, j: nat)
    ensures Power(a, i + j) == Conc(Power(a, i), Power(a, j))
  {
    if j == 0 {
      ConcUnit(Power(a, i));
    } else {
      PowerAdd(a, i, j - 1);
      ConcAssoc(Power(a, i), Power(a, j - 1), a);
    }
  }

  lemma PowerOne(a: Language)
    ensures Power(a, 1) == a
  {
    ConcUnit(a);
  }

  lemma ConcPower(a: Language, i: nat, m: nat, u: seq<Byte>, v: seq<Byte>)
    requires u in Power(a, i) && v in Power(a, m)
    ensures u + v in Power(a, i + m)
  {
    PowerAdd(a, i, m);
    ConcIn(Power(a, i), Power(a, m), u, v);
  }

  lemma ConcAtLeast(a: Language, i: nat, j: nat)
    ensures Conc(Power(a, i), AtLeast(a, j)) == AtLeast(a, i + j)
  {
    hide Conc, Power;
    forall s: seq<Byte> | s in Conc(Power(a, i), AtLeast(a, j)) ensures s in AtLeast(a, i + j) {
      var k := ConcSplit(Power(a, i), AtLeast(a, j), s);
      var m: nat :| j <= m && s[k..] in Power(a, m);
      ConcPower(a, i, m, s[..k], s[k..]);
      assert s[..k] + s[k..] == s && s in Power(a, i + m);
    }
    forall s: seq<Byte> | s in AtLeast(a, i + j) ensures s in Conc(Power(a, i), AtLeast(a, j)) {
      var m: nat :| i + j <= m && s in Power(a, m);
      PowerAdd(a, i, m - i);
      var k := ConcSplit(Power(a, i), Power(a, m - i), s);
      assert InSomePower(a, j, s[k..]);
      ConcJoin(Power(a, i), AtLeast(a, j), s, k);
    }
  }

  lemma LangCat(id: nat, l: Node, r: Node)
    ensures Lang(Cat(id, l, r)) == Conc(Lang(l), Lang(r))
  {
    hide Conc;
    forall s: seq<Byte> | s in Lang(Cat(id, l, r)) ensures s in Conc(Lang(l), Lang(r)) {
      var k: nat :| k <= |s| && Matches(l, s[..k]) && Matches(r, s[k..]);
      ConcJoin(Lang(l), Lang(r), s, k);
    }
    forall s: seq<Byte> | s in Conc(Lang(l), Lang(r)) ensures s in Lang(Cat(id, l, r)) {
      var k := ConcSplit(Lang(l), Lang(r), s);
    }
  }

  /** The star of the tree semantics is the union of all powers. */
  lemma LangStar(id: nat, n: Node)
    ensures Lang(Star(id, n)) == AtLeast(Lang(n), 0)
  {
    forall s: seq<Byte> ensures Matches(Star(id, n), s) <==> InSomePower(Lang(n), 0, s) {
      if Matches(Star(id, n), s) { StarHasPower(n, id, s); }
      if j: nat :| s in Power(Lang(n), j) { PowerInStar(n, id, j, s); }
    }
  }

  lemma {:induction false} StarHasPower(n: Node, id: nat, s: seq<Byte>)
    requires Matches(Star(id, n), s)
    ensures InSomePower(Lang(n), 0, s)
    decreases |s|
  {
    hide Conc, Power;
    if s == [] {
      PowerStep(Lang(n), 0);
      assert s in Power(Lang(n), 0);
    } else {
      var k: nat :| 0 < k <= |s| && Matches(n, s[..k]) && Matches(Star(id, n), s[k..]);
      StarHasPower(n, id, s[k..]);
      var j: nat :| s[k..] in Power(Lang(n), j);
      PowerOne(Lang(n));
      ConcPower(Lang(n), 1, j, s[..k], s[k..]);
      assert s[..k] + s[k..] == s;
      assert s in Power(Lang(n), 1 + j);
    }
  }

  lemma {:induction false} PowerInStar(n: Node, id: nat, j: nat, s: seq<Byte>)
    requires s in Power(Lang(n), j)
    ensures Matches(Star(id, n), s)
    decreases j
  {
    hide Conc, Power;
    PowerStep(Lang(n), 0);
    if j > 0 {
      PowerAdd(Lang(n), 1, j - 1);
      PowerOne(Lang(n));
      var k := ConcSplit(Lang(n), Power(Lang(n), j - 1), s);
      PowerInStar(n, id, j - 1, s[k..]);
      if k == 0 { assert s[k..] == s; }
    }
  }

  /** What the parser has read before the last item. */
  ghost function LangBefore(n: Option<Node>): Language {
    if n.None? then iset{[]} else Lang(n.value)
  }

  /** Appends the last item to what came before it. */
  function Join(n: Option<Node>, last: Node, id: nat): (Node, nat) {
    if n.None? then (last, id) else (Cat(id, n.value, last), id + 1)
  }

  lemma JoinMeaning(n: Option<Node>, last: Node, id: nat)
    ensures Lang(Join(n, last, id).0) == Conc(LangBefore(n), Lang(last))
  {
    if n.None? { ConcUnit(Lang(last)); } else { LangCat(id, n.value, last); }
  }

  lemma DupLang(n: Node, id: nat)
    ensures Lang(Dup(n, id).0) == Lang(n)
  {
    forall s: seq<Byte> ensures Matches(Dup(n, id).0, s) <==> Matches(n, s) { DupMeaning(n, id, s); }
  }

  /** A tree numbered below `id` in which no leaf occurs twice. */
  ghost predicate Tree(n: Node, id: nat) {
    Unshared(n) && Body(n) && IdsWithin(n, 0, id)
  }

  /** A parser state numbered below `id` whose parts share no leaf. */
  ghost predicate Parsed(n: Option<Node>, last: Node, id: nat) {
    Tree(last, id) && (n.Some? ==> Tree(n.value, id) && ApartIds(Leaves(n.value), Leaves(last)))
  }

  /** The item joins what came before it, and a copy takes its place. */
  method JoinAndCopy(n: Option<Node>, last: Node, id: nat) returns (n': Option<Node>, last': Node, id': nat)
    requires Parsed(n, last, id)
    ensures n'.Some? && Parsed(n', last', id')
    ensures Lang(n'.value) == Conc(LangBefore(n), Lang(last)) && Lang(last') == Lang(last)
  {
    var (joined, k) := Join(n, last, id);
    JoinMeaning(n, last, id);
    var (copy, k') := Dup(last, k);
    DupUnshared(last, k);
    DupLang(last, k);
    n', last', id' := Some(joined), copy, k';
  }

  /** `+`: one copy, then any number. */
  method Plus(n: Option<Node>, last: Node, id: nat) returns (n': Option<Node>, last': Node, id': nat)
    requires Parsed(n, last, id)
    ensures Parsed(n', last', id')
    ensures Conc(LangBefore(n'), Lang(last')) == Conc(LangBefore(n), AtLeast(Lang(last), 1))
  {
    n', last', id' := RepeatFrom(n, last, 1, id);
  }

  /** `{low,}`: `low` copies, then any number. */
  method RepeatFrom(n: Option<Node>, last: Node, low: nat, id: nat) returns (n': Option<Node>, last': Node, id': nat)
    requires Parsed(n, last, id)
    ensures Parsed(n', last', id')
    ensures Conc(LangBefore(n'), Lang(last')) == Conc(LangBefore(n), AtLeast(Lang(last), low))
  {
    hide Conc, Power, Lang, AtLeast;
    n', last', id' := n, last, id;
    ghost var b, a := LangBefore(n), Lang(last);
    ConcUnit(b);
    PowerStep(a, 0);
    var i := 0;
    while i < low
      invariant i <= low && Parsed(n', last', id')
      invariant Lang(last') == a && LangBefore(n') == Conc(b, Power(a, i))
    {
      ConcAssoc(b, Power(a, i), a);
      PowerStep(a, i);
      n', last', id' := JoinAndCopy(n', last', id');
      i := i + 1;
    }
    LangStar(id', last');
    ConcAssoc(b, Power(a, low), AtLeast(a, 0));
    ConcAtLeast(a, low, 0);
    last', id' := Star(id', last'), id' + 1;
  }

  ghost predicate InPowers(a: Language, low: nat, high: nat, s: seq<Byte>) {
    exists j: nat | low <= j <= high :: s in Power(a, j)
  }

  /** The concatenations of `low` to `high` strings of `a`. */
  ghost function Between(a: Language, low: nat, high: nat): Language {
    iset s: seq<Byte> | InPowers(a, low, high, s)
  }

  lemma BetweenMore(a: Language, low: nat, high: nat)
    requires low <= high + 1
    ensures Between(a, low, high + 1) == Between(a, low, high) + Power(a, high + 1)
    ensures Between(a, high, high) == Power(a, high)
  {
    hide Power;
    forall s: seq<Byte> ensures s in Between(a, low, high + 1) <==> s in Between(a, low, high) || s in Power(a, high + 1) {
      if s in Between(a, low, high + 1) {
        var j: nat :| low <= j <= high + 1 && s in Power(a, j);
      }
    }
  }

  lemma LangOr(id: nat, l: Node, r: Node)
    ensures Lang(Or(id, l, r)) == Lang(l) + Lang(r)
  {
  }

  ghost predicate Apart(a: Option<Node>, n: Node) {
    a.Some? ==> ApartIds(Leaves(a.value), Leaves(n))
  }

  /** The alternative under construction, the finished alternatives and, while `live`, the item share no leaf. */
  ghost predicate Alternatives(t: Option<Node>, ts: Option<Node>, last: Node, id: nat, live: bool) {
    && Tree(last, id) && (t.Some? ==> Tree(t.value, id)) && (ts.Some? ==> Tree(ts.value, id))
    && (t.Some? ==> Apart(ts, t.value)) && (live ==> Apart(t, last) && Apart(ts, last))
  }

  /** One round of the inner loop; the item is copied only when it is needed again. */
  method AddCopy(t: Option<Node>, ghost ts: Option<Node>, last: Node, again: bool, id: nat)
    returns (t': Option<Node>, last': Node, id': nat)
    requires Alternatives(t, ts, last, id, true)
    ensures t'.Some? && Alternatives(t', ts, last', id', again)
    ensures Lang(t'.value) == Conc(LangBefore(t), Lang(last)) && Lang(last') == Lang(last)
  {
    var (joined, k) := Join(t, last, id);
    JoinMeaning(t, last, id);
    t', last', id' := Some(joined), last, k;
    if again {
      var (copy, k') := Dup(last, k);
      DupUnshared(last, k);
      DupLang(last, k);
      last', id' := copy, k';
    }
  }

  /** The inner loop: one alternative of exactly `j` copies. */
  method OneAlternative(ghost ts: Option<Node>, last: Node, j: nat, high: nat, id: nat)
    returns (t: Option<Node>, last': Node, id': nat)
    requires j <= high && Alternatives(None, ts, last, id, true)
    ensures Alternatives(t, ts, last', id', j < high) && Lang(last') == Lang(last)
    ensures t.None? <==> j == 0
    ensures LangBefore(t) == Power(Lang(last), j)
  {
    hide Conc, Power, Lang;
    ghost var a := Lang(last);
    t, last', id' := None, last, id;
    PowerStep(a, 0);
    var i := 0;
    while i < j
      invariant i <= j && (t.None? <==> i == 0)
      invariant Alternatives(t, ts, last', id', i < j || j < high)
      invariant Lang(last') == a && LangBefore(t) == Power(a, i)
    {
      PowerStep(a, i);
      t, last', id' := AddCopy(t, ts, last', j + 1 <= high || i + 1 < j, id');
      i := i + 1;
    }
  }

  /** The finished alternative joins the others. */
  method AddAlternative(ts: Option<Node>, t: Option<Node>, ghost item: Node, id: nat, ghost live: bool)
    returns (r: Option<Node>, id': nat)
    requires Alternatives(t, ts, item, id, live) && (ts.Some? ==> t.Some?)
    ensures Alternatives(None, r, item, id', live)
    ensures r.None? <==> t.None?
    ensures r.Some? ==> Lang(r.value) == if ts.Some? then Lang(ts.value) + Lang(t.value) else Lang(t.value)
  {
    if ts.Some? {
      LangOr(id, ts.value, t.value);
      r, id' := Some(Or(id, ts.value, t.value)), id + 1;
    } else {
      r, id' := t, id;
    }
  }

  /** `{low,high}`. The round for zero copies yields no alternative, so the empty repetition is lost;
      without any alternative the result is the null child. */
  method RepeatBetween(last: Node, low: nat, high: nat, id: nat) returns (r: Option<Node>, id': nat)
    requires Tree(last, id)
    ensures r.None? <==> high == 0 || high < low
    ensures r.Some? ==> Tree(r.value, id')
    ensures r.Some? ==> Lang(r.value) == Between(Lang(last), if low == 0 then 1 else low, high)
    ensures r.Some? ==> (Lang(r.value) == Between(Lang(last), low, high) <==> low > 0 || Nullable(last))
  {
    hide Power, Lang, Between, Tree, Alternatives;
    AlternativesStart(last, id, low <= high);
    ghost var a, from := Lang(last), if low == 0 then 1 else low;
    var item, ts: Option<Node> := last, None;
    id' := id;
    var j := low;
    while j <= high
      invariant low <= j && (j <= high + 1 || j == low) && Lang(item) == a
      invariant Alternatives(None, ts, item, id', j <= high)
      invariant ts.None? <==> j <= from
      invariant ts.Some? ==> Lang(ts.value) == Between(a, from, j - 1)
      decreases high + 1 - j
    {
      var t;
      t, item, id' := OneAlternative(ts, item, j, high, id');
      if j > 0 { BetweenMore(a, from, j - 1); BetweenMore(a, from, j); }
      ts, id' := AddAlternative(ts, t, item, id', j < high);
      j := j + 1;
    }
    if ts.None? {
      r := None;
    } else {
      r := Some(Paren(id', ts.value));
      ParenLang(id', ts.value);
      AlternativesEnd(ts.value, item, id', j <= high);
      RepeatBetweenExact(a, low, high);
      NullableLang(last, id);
      id' := id' + 1;
    }
  }

  lemma AlternativesStart(last: Node, id: nat, live: bool)
    requires Tree(last, id)
    ensures Alternatives(None, None, last, id, live)
  {
  }

  lemma AlternativesEnd(n: Node, last: Node, id: nat, live: bool)
    requires Alternatives(None, Some(n), last, id, live)
    ensures Tree(Paren(id, n), id + 1)
  {
  }

  lemma ParenLang(id: nat, n: Node)
    ensures Lang(Paren(id, n)) == Lang(n)
  {
  }

  /** `{low,high}` means what it says exactly when `low` is positive or the repeated item can be empty. */
  lemma RepeatBetweenExact(a: Language, low: nat, high: nat)
    requires low <= high && 0 < high
    ensures Between(a, if low == 0 then 1 else low, high) == Between(a, low, high) <==> low > 0 || [] in a
  {
    var e: seq<Byte> := [];
    if low == 0 {
      PowerStep(a, 0);
      assert e in Power(a, 0);
      assert e in Between(a, 0, high);
      if e in a {
        PowerOne(a);
        forall s: seq<Byte> | s in Between(a, 0, high) ensures s in Between(a, 1, high) {
          var j: nat :| 0 <= j <= high && s in Power(a, j);
          if j == 0 { assert s == e && s in Power(a, 1); }
        }
        forall s: seq<Byte> | s in Between(a, 1, high) ensures s in Between(a, 0, high) {
        }
      } else {
        forall j: nat | 1 <= j ensures e !in Power(a, j) { NoEmptyPower(a, j); }
        assert e !in Between(a, 1, high);
      }
    }
  }

  lemma NullableLang(n: Node, id: nat)
    requires Tree(n, id)
    ensures [] in Lang(n) <==> Nullable(n)
  {
    NullableMatchesEmpty(n);
  }

  /** On an item that cannot be empty `{0,high}` loses the empty text: what is built does not match it. */
  method ZeroTimesLost(last: Node, high: nat, id: nat) returns (r: Option<Node>, id': nat)
    requires Tree(last, id) && !Nullable(last) && high > 0
    ensures r.Some? && !Matches(r.value, []) && [] in Between(Lang(last), 0, high)
  {
    r, id' := RepeatBetween(last, 0, high, id);
    ghost var a, e: seq<Byte> := Lang(last), [];
    PowerStep(a, 0);
    assert e in Power(a, 0);
    NullableLang(last, id);
    if e in Between(a, 1, high) {
      var j: nat :| 1 <= j <= high && e in Power(a, j);
      NoEmptyPower(a, j);
    }
    assert e !in Lang(r.value);
  }

  /** The smallest case: a character class with `{0,1}`. */
  method OptionalClass(cclass: CharClass) returns (r: Option<Node>)
    ensures r.Some? && !Matches(r.value, []) && [] in Between(Lang(CClass(0, cclass)), 0, 1)
  {
    var id';
    r, id' := ZeroTimesLost(CClass(0, cclass), 1, 1);
  }

  lemma NoEmptyPower(a: Language, j: nat)
    requires [] !in a && j > 0
    ensures [] !in Power(a, j)
  {
    if [] in Power(a, j) {
      var k := ConcSplit(Power(a, j - 1), a, []);
    }
  }
}
